/** JavaScript's indexOf, split and join on text, and exactly when splitting undoes joining. */
module TextCut {
  import opened Wrappers
  import opened Strings

  predicate Occurs(s: string, t: string) { exists i :: 0 <= i <= |s| && At(s, i, t) }

  /** The first occurrence of `t` at or after `i`. */
  function IndexOf(s: string, t: string, i: nat): (r: Option<nat>)
    ensures r.Some? ==> i <= r.value && r.value + |t| <= |s| && At(s, r.value, t)
    decreases |s| - i
  {
    if i + |t| > |s| then None
    else if At(s, i, t) then Some(i)
    else IndexOf(s, t, i + 1)
  }

  lemma {:induction false} IndexOfIsFirst(s: string, t: string, i: nat)
    ensures
      var r := IndexOf(s, t, i);
      forall j :: i <= j && (r.Some? ==> j < r.value) ==> !At(s, j, t)
    decreases |s| - i
  {
    if i + |t| <= |s| && !At(s, i, t) { IndexOfIsFirst(s, t, i + 1); }
  }

  function Split(s: string, sep: string): (r: seq<string>)
    requires sep != ""
    ensures |r| >= 1
    decreases |s|
  {
    var k := IndexOf(s, sep, 0);
    if k.None? then [s] else [s[..k.value]] + Split(s[k.value + |sep|..], sep)
  }

  function Join(ps: seq<string>, sep: string): string {
    if ps == [] then "" else if |ps| == 1 then ps[0] else ps[0] + (sep + Join(ps[1..], sep))
  }

  /** With a separator after it, `p` is followed by the first occurrence of that separator: it contains
      none and does not begin one that the separator's start completes. */
  predicate Fits(p: string, sep: string)
    requires sep != ""
  {
    !Occurs(p + sep[..|sep| - 1], sep)
  }

  lemma AtPrefix(a: string, b: string, i: int, t: string)
    requires 0 <= i && i + |t| <= |a|
    ensures At(a + b, i, t) <==> At(a, i, t)
  {
    assert (a + b)[i..i + |t|] == a[i..i + |t|];
  }

  lemma AtMiddle(a: string, t: string, b: string)
    ensures At(a + (t + b), |a|, t)
  {
    assert (a + (t + b))[|a|..|a| + |t|] == t;
  }

  /** Where the first separator of `a sep b` is. */
  lemma FirstSeparator(a: string, sep: string, b: string)
    requires sep != ""
    ensures
      var k := IndexOf(a + (sep + b), sep, 0);
      k.Some? && k.value <= |a| && (k.value == |a| <==> Fits(a, sep))
  {
    var s, head := a + (sep + b), a + sep[..|sep| - 1];
    AtMiddle(a, sep, b);
    IndexOfIsFirst(s, sep, 0);
    var k := IndexOf(s, sep, 0);
    assert s == head + ([sep[|sep| - 1]] + b) by {
      assert sep == sep[..|sep| - 1] + [sep[|sep| - 1]];
    }
    forall i | 0 <= i < |a| ensures At(s, i, sep) <==> At(head, i, sep) {
      AtPrefix(head, [sep[|sep| - 1]] + b, i, sep);
    }
    assert forall i :: At(head, i, sep) ==> i < |a|;
  }

  /** Searching from an offset is searching the rest. */
  lemma {:induction false} IndexOfShift(a: string, b: string, t: string, i: nat)
    requires t != ""
    ensures
      IndexOf(a + b, t, |a| + i) == if IndexOf(b, t, i).Some? then Some(|a| + IndexOf(b, t, i).value) else None
    decreases |b| - i
  {
    if i + |t| <= |b| {
      assert (a + b)[|a| + i..|a| + i + |t|] == b[i..i + |t|];
      if !At(b, i, t) { IndexOfShift(a, b, t, i + 1); }
    }
  }

  /** Searching on after a separator is searching what follows it. */
  lemma NextSearch(a: string, sep: string, b: string)
    requires sep != ""
    ensures
      var j := IndexOf(b, sep, 0);
      IndexOf(a + (sep + b), sep, |a| + |sep|) == if j.Some? then Some(|a| + |sep| + j.value) else None
  {
    hide IndexOf;
    IndexOfShift(a + sep, b, sep, 0);
    assert a + (sep + b) == (a + sep) + b;
  }

  lemma SplitFirst(a: string, sep: string, b: string)
    requires sep != "" && Fits(a, sep)
    ensures Split(a + (sep + b), sep) == [a] + Split(b, sep)
  {
    FirstSeparator(a, sep, b);
    var s := a + (sep + b);
    assert s[..|a|] == a && s[|a| + |sep|..] == b;
    hide IndexOf;
    hide Fits;
  }

  lemma SplitWhole(s: string, sep: string)
    requires sep != ""
    ensures Split(s, sep)[0] == s <==> !Occurs(s, sep)
    ensures !Occurs(s, sep) ==> Split(s, sep) == [s]
    ensures |Split(s, sep)[0]| <= |s| && !Occurs(Split(s, sep)[0], sep)
  {
    var k := IndexOf(s, sep, 0);
    IndexOfIsFirst(s, sep, 0);
    if k.Some? {
      var p := s[..k.value];
      assert s == p + s[k.value..];
      forall i | At(p, i, sep) ensures false {
        AtPrefix(p, s[k.value..], i, sep);
      }
    }
  }

  lemma {:induction false} PiecesAreFree(s: string, sep: string, c: char)
    requires sep != "" && c !in s
    ensures forall p :: p in Split(s, sep) ==> c !in p
    decreases |s|
  {
    var k := IndexOf(s, sep, 0);
    if k.Some? {
      PiecesAreFree(s[k.value + |sep|..], sep, c);
    }
  }

  lemma {:induction false} NoCharInPieces(s: string, c: char)
    ensures forall p :: p in Split(s, [c]) ==> c !in p
    decreases |s|
  {
    var k := IndexOf(s, [c], 0);
    IndexOfIsFirst(s, [c], 0);
    CharOccurs(s, c);
    if k.Some? {
      NoCharInPieces(s[k.value + 1..], c);
      forall i | 0 <= i < k.value ensures s[i] != c {
        assert !At(s, i, [c]);
        assert s[i..i + 1] == [s[i]];
      }
    }
  }

  lemma CharOccurs(s: string, c: char)
    ensures Occurs(s, [c]) <==> c in s
  {
    if c in s {
      var i :| 0 <= i < |s| && s[i] == c;
      assert s[i..i + 1] == [c];
      assert At(s, i, [c]);
    }
    forall i | At(s, i, [c]) ensures c in s {
      assert s[i..i + 1][0] == s[i];
    }
  }

  lemma FitsChar(p: string, c: char)
    ensures Fits(p, [c]) <==> c !in p
  {
    assert p + [c][..0] == p;
    CharOccurs(p, c);
  }

  lemma {:induction false} JoinSplit(s: string, sep: string)
    requires sep != ""
    ensures Join(Split(s, sep), sep) == s
    decreases |s|
  {
    var k := IndexOf(s, sep, 0);
    if k.Some? {
      var a, b := s[..k.value], s[k.value + |sep|..];
      assert s == a + (sep + b);
      JoinSplit(b, sep);
      assert ([a] + Split(b, sep))[1..] == Split(b, sep);
      hide IndexOf;
    }
  }

  /** Every part but the last fits before a separator, and the last contains none. */
  predicate Separable(ps: seq<string>, sep: string)
    requires sep != ""
  {
    ps != [] && (forall i :: 0 <= i < |ps| - 1 ==> Fits(ps[i], sep)) && !Occurs(ps[|ps| - 1], sep)
  }

  /** Splitting undoes joining exactly for separable parts. */
  lemma {:induction false} SplitJoin(ps: seq<string>, sep: string)
    requires sep != "" && ps != []
    ensures Split(Join(ps, sep), sep) == ps <==> Separable(ps, sep)
    decreases |ps|
  {
    if |ps| == 1 {
      SplitWhole(ps[0], sep);
      assert ps == [ps[0]];
    } else {
      var a, rest := ps[0], ps[1..];
      var b := Join(rest, sep);
      assert ps == [a] + rest;
      SplitJoin(rest, sep);
      SeparableStep(a, rest, sep);
      FirstSeparator(a, sep, b);
      if Fits(a, sep) {
        SplitFirst(a, sep, b);
        assert ([a] + Split(b, sep))[1..] == Split(b, sep);
      } else {
        assert |Split(a + (sep + b), sep)[0]| < |a|;
      }
    }
  }

  lemma SeparableStep(a: string, rest: seq<string>, sep: string)
    requires sep != "" && rest != []
    ensures Separable([a] + rest, sep) <==> Fits(a, sep) && Separable(rest, sep)
  {
    var ps := [a] + rest;
    hide Fits;
    hide Occurs;
    assert ps[0] == a && ps[|ps| - 1] == rest[|rest| - 1];
    assert forall i :: 0 <= i < |rest| - 1 ==> rest[i] == ps[i + 1];
    assert forall i :: 1 <= i < |ps| - 1 ==> ps[i] == rest[i - 1];
  }

  /** `const [x, y] = s.split(sep)` with both parts required to be non-empty. */
  function FirstTwo(s: string, sep: string): Option<(string, string)>
    requires sep != ""
  {
    var ps := Split(s, sep);
    if |ps| >= 2 && ps[0] != "" && ps[1] != "" then Some((ps[0], ps[1])) else None
  }

  lemma FirstTwoExact(a: string, sep: string, b: string)
    requires sep != ""
    ensures
      FirstTwo(a + (sep + b), sep) == Some((a, b)) <==> a != "" && b != "" && Fits(a, sep) && !Occurs(b, sep)
    ensures Fits(a, sep) && FirstTwo(a + (sep + b), sep).Some? ==>
              FirstTwo(a + (sep + b), sep) == Some((a, Split(b, sep)[0]))
  {
    FirstSeparator(a, sep, b);
    SplitWhole(b, sep);
    if Fits(a, sep) {
      SplitFirst(a, sep, b);
    } else {
      assert |Split(a + (sep + b), sep)[0]| < |a|;
    }
  }
}
