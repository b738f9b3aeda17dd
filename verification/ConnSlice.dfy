/** The slice of UI connections (web/web.go): removeConn shifts its array in place while loops over an older
    slice of the same array are under way. */
module ConnSlice {
  import opened Wrappers

  type Conn = nat

  ghost predicate Distinct(s: seq<Conn>) { forall i, j :: 0 <= i < j < |s| ==> s[i] != s[j] }

  /** The first place of `c`; the length when it is not there. */
  function Find(s: seq<Conn>, c: Conn): (d: nat)
    ensures d <= |s| && (d < |s| ==> s[d] == c)
    ensures forall i :: 0 <= i < d ==> s[i] != c
  {
    if s == [] then 0
    else
      var before := Find(s[..|s| - 1], c);
      if before < |s| - 1 || s[|s| - 1] == c then before else |s|
  }

  /** All slots after place `d` of the first `len` move one to the left; the last of them keeps its copy. */
  function Shifted(slots: seq<Conn>, len: nat, d: nat): (r: seq<Conn>)
    requires d < len <= |slots|
    ensures |r| == |slots|
    ensures forall j {:trigger r[j]} :: 0 <= j < |slots| ==> r[j] == if d <= j < len - 1 then slots[j + 1] else slots[j]
  {
    slots[..d] + slots[d + 1..len] + slots[len - 1..]
  }

  // ----- the object

  class WebConns {
    var slots: array<Conn>
    var len: nat

    ghost predicate Valid() reads this { len <= slots.Length }

    constructor (conns: array<Conn>)
      ensures slots == conns && len == conns.Length && Valid()
    {
      slots, len := conns, conns.Length;
    }

    method RemoveConn(c: Conn)
      requires Valid()
      modifies this`len, slots
      ensures Valid()
      ensures
        var d := Find(old(slots[..len]), c);
        if d < old(len) then len == old(len) - 1 && slots[..] == Shifted(old(slots[..]), old(len), d)
        else len == old(len) && slots[..] == old(slots[..])
    {
      var index := 0;
      while index < len && slots[index] != c
        invariant index <= len == old(len) && forall i :: 0 <= i < index ==> slots[i] != c
      {
        index := index + 1;
      }
      if index == len {
        return;
      }
      // append(conns[:index], conns[index+1:]...)
      var i := index;
      while i + 1 < len
        invariant index <= i < len == old(len)
        invariant forall j :: 0 <= j < slots.Length ==>
          slots[j] == if index <= j < i then old(slots[j + 1]) else old(slots[j])
      {
        slots[i] := slots[i + 1];
        i := i + 1;
      }
      len := len - 1;
    }
  }

  // ----- a loop over the connections

  /** The array as a loop that began with all of it sees it: `len` slots are still in use, `next` is the slot it
      reads next. */
  datatype State = State(slots: seq<Conn>, len: nat, next: nat, visited: seq<Conn>)

  datatype Step = Visits | Removes(conn: Conn)

  function Live(s: State): seq<Conn>
    requires s.len <= |s.slots|
  {
    s.slots[..s.len]
  }

  predicate Enabled(t: Step, s: State) { s.len <= |s.slots| && (t.Visits? ==> s.next < |s.slots|) }

  function Do(t: Step, s: State): State
    requires Enabled(t, s)
  {
    match t
    case Visits => s.(visited := s.visited + [s.slots[s.next]], next := s.next + 1)
    case Removes(c) =>
      var d := Find(Live(s), c);
      if d < s.len then s.(slots := Shifted(s.slots, s.len, d), len := s.len - 1) else s
  }

  function After(conns: seq<Conn>, steps: seq<Step>): Option<State> {
    if steps == [] then Some(State(conns, |conns|, 0, [])) else
      var p, t := After(conns, steps[..|steps| - 1]), steps[|steps| - 1];
      if p.Some? && Enabled(t, p.value) then Some(Do(t, p.value)) else None
  }

  /** The connection that the loop comes to next, which is not the last, is shifted to a slot the loop has
      passed. */
  predicate Loses(t: Step, s: State, c: Conn) {
    s.next + 1 < s.len <= |s.slots| && s.slots[s.next] == c && t.Removes? && Find(Live(s), t.conn) < s.next
  }

  predicate LosesIn(conns: seq<Conn>, steps: seq<Step>, c: Conn) {
    steps != [] &&
    (LosesIn(conns, steps[..|steps| - 1], c) ||
     (After(conns, steps[..|steps| - 1]).Some? &&
      Loses(steps[|steps| - 1], After(conns, steps[..|steps| - 1]).value, c)))
  }

  ghost predicate Ahead(s: State, c: Conn) { exists j :: s.next <= j < |s.slots| && s.slots[j] == c }

  /** A copy of `c` behind the slots in use is one of the last. */
  ghost predicate CopiesOfLast(slots: seq<Conn>, len: nat, c: Conn)
    requires 0 < len <= |slots|
  {
    (exists j :: len <= j < |slots| && slots[j] == c) ==> slots[len - 1] == c
  }

  ghost predicate NotFrom(slots: seq<Conn>, next: nat, len: nat, c: Conn)
    requires len <= |slots|
  {
    forall j :: next <= j < len ==> slots[j] != c
  }

  /** A connection that stays is in use, once, and not ahead in use once it has been visited. */
  ghost predicate Inv(s: State, c: Conn) {
    0 < s.len <= |s.slots| && s.next <= |s.slots| && Distinct(Live(s)) && c in Live(s) &&
    CopiesOfLast(s.slots, s.len, c) && (c in s.visited ==> NotFrom(s.slots, s.next, s.len, c))
  }

  lemma ShiftedLive(s: State, d: nat)
    requires d < s.len <= |s.slots| && Distinct(Live(s))
    ensures Distinct(Shifted(s.slots, s.len, d)[..s.len - 1])
    ensures forall c :: c in Live(s) && c != s.slots[d] ==> c in Shifted(s.slots, s.len, d)[..s.len - 1]
  {
    var r := Shifted(s.slots, s.len, d)[..s.len - 1];
    hide Shifted;
    forall c | c in Live(s) && c != s.slots[d] ensures c in r {
      var j :| 0 <= j < s.len && s.slots[j] == c;
      assert r[if j < d then j else j - 1] == c;
    }
  }

  lemma ShiftCopies(slots: seq<Conn>, len: nat, d: nat, c: Conn)
    requires d < len <= |slots| && 1 < len && slots[d] != c && CopiesOfLast(slots, len, c)
    ensures CopiesOfLast(Shifted(slots, len, d), len - 1, c)
  {
    var r := Shifted(slots, len, d);
    hide Shifted;
    if exists j :: len - 1 <= j < |slots| && r[j] == c {
      var j :| len - 1 <= j < |slots| && r[j] == c;
      assert slots[j] == c;
      assert slots[len - 1] == c;
      assert r[len - 2] == slots[len - 1];
    }
  }

  lemma ShiftNotFrom(slots: seq<Conn>, next: nat, len: nat, d: nat, c: Conn)
    requires d < len <= |slots| && NotFrom(slots, next, len, c)
    ensures NotFrom(Shifted(slots, len, d), next, len - 1, c)
  {
    var r := Shifted(slots, len, d);
    hide Shifted;
    forall j | next <= j < len - 1 ensures r[j] != c {
      assert slots[if d <= j then j + 1 else j] != c;
    }
  }

  /** A connection that stays is kept by a removal. */
  lemma ShiftKeepsInv(s: State, d: nat, c: Conn)
    requires Inv(s, c) && d < s.len && s.slots[d] != c
    ensures Inv(s.(slots := Shifted(s.slots, s.len, d), len := s.len - 1), c)
  {
    hide Shifted;
    hide Distinct;
    hide CopiesOfLast;
    hide NotFrom;
    ShiftedLive(s, d);
    var j :| 0 <= j < s.len && s.slots[j] == c;
    ShiftCopies(s.slots, s.len, d, c);
    if c in s.visited {
      ShiftNotFrom(s.slots, s.next, s.len, d, c);
    }
  }

  lemma NoneBehind(s: State, c: Conn)
    requires Inv(s, c) && s.next + 1 < s.len && s.slots[s.next] == c
    ensures forall j :: s.next < j < |s.slots| ==> s.slots[j] != c
  {
    assert Live(s)[s.next] == c && Live(s)[s.len - 1] == s.slots[s.len - 1];
    forall j | s.next < j < s.len ensures s.slots[j] != c {
      assert Live(s)[j] == s.slots[j];
    }
  }

  lemma AheadOfShifted(slots: seq<Conn>, next: nat, len: nat, d: nat, c: Conn, j: nat)
    requires d < len <= |slots| && next <= j < |slots| && Shifted(slots, len, d)[j] == c
    ensures exists k :: next <= k < |slots| && slots[k] == c && (slots[next] == c && d < next < len - 1 ==> k > next)
  {
    var r := Shifted(slots, len, d);
    hide Shifted;
    assert slots[if d <= j < len - 1 then j + 1 else j] == c;
  }

  lemma StaysAhead(slots: seq<Conn>, next: nat, len: nat, d: nat, c: Conn, j: nat)
    requires d < len <= |slots| && next <= j < |slots| && slots[j] == c != slots[d]
    requires j == next && next < len - 1 ==> d >= next
    ensures exists k :: next <= k < |slots| && Shifted(slots, len, d)[k] == c
  {
    var r := Shifted(slots, len, d);
    hide Shifted;
    assert r[if next < j && d < j < len then j - 1 else j] == c;
  }

  lemma ShiftAhead(s: State, d: nat, c: Conn)
    requires Inv(s, c) && d < s.len && s.slots[d] != c
    ensures
      Ahead(s.(slots := Shifted(s.slots, s.len, d), len := s.len - 1), c) <==>
      Ahead(s, c) && !(s.next + 1 < s.len && s.slots[s.next] == c && d < s.next)
  {
    var r := Shifted(s.slots, s.len, d);
    var s' := s.(slots := r, len := s.len - 1);
    if s.next + 1 < s.len && s.slots[s.next] == c {
      NoneBehind(s, c);
    }
    hide Inv;
    hide Shifted;
    if Ahead(s', c) {
      var j :| s.next <= j < |r| && r[j] == c;
      AheadOfShifted(s.slots, s.next, s.len, d, c, j);
    }
    if Ahead(s, c) && !(s.next + 1 < s.len && s.slots[s.next] == c && d < s.next) {
      var j :| s.next <= j < |r| && s.slots[j] == c;
      StaysAhead(s.slots, s.next, s.len, d, c, j);
    }
  }

  lemma StepKeepsInv(t: Step, s: State, c: Conn)
    requires Inv(s, c) && Enabled(t, s) && t != Removes(c)
    ensures Inv(Do(t, s), c)
  {
    if t.Removes? {
      var d := Find(Live(s), t.conn);
      if d < s.len {
        ShiftKeepsInv(s, d, c);
      }
      hide Shifted;
      hide Inv;
    }
  }

  /** One step: what is ahead is visited, stays ahead, or is lost. */
  lemma StepAhead(t: Step, s: State, c: Conn)
    requires Inv(s, c) && Enabled(t, s) && t != Removes(c)
    ensures c in Do(t, s).visited || Ahead(Do(t, s), c) <==> (c in s.visited || Ahead(s, c)) && !Loses(t, s, c)
  {
    if t.Removes? {
      var d := Find(Live(s), t.conn);
      if d < s.len {
        ShiftAhead(s, d, c);
      }
      hide Shifted;
      hide Ahead;
    }
  }

  /** Over any run of visits and removals, a connection that is not removed itself is visited by the loop
      exactly when it was never shifted past it. */
  lemma {:induction false} VisitedExactly(conns: seq<Conn>, steps: seq<Step>, c: Conn)
    requires Distinct(conns) && c in conns && Removes(c) !in steps && After(conns, steps).Some?
    ensures Inv(After(conns, steps).value, c)
    ensures
      var s := After(conns, steps).value;
      (c in s.visited || Ahead(s, c) <==> !LosesIn(conns, steps, c)) &&
      (s.next == |s.slots| ==> (c in s.visited <==> !LosesIn(conns, steps, c)))
  {
    if steps == [] {
      assert conns[..|conns|] == conns;
      var j :| 0 <= j < |conns| && conns[j] == c;
      assert Ahead(After(conns, steps).value, c);
    } else {
      var before, t := steps[..|steps| - 1], steps[|steps| - 1];
      assert steps == before + [t];
      VisitedExactly(conns, before, c);
      StepKeepsInv(t, After(conns, before).value, c);
      StepAhead(t, After(conns, before).value, c);
      hide Inv;
      hide Loses;
      hide Do;
    }
  }

  // ----- one removal during a loop

  /** What a loop visits when place `d` is removed after `i` visits. */
  function Visited(conns: seq<Conn>, i: nat, d: nat): seq<Conn>
    requires i <= |conns| && d < |conns|
  {
    conns[..i] + Shifted(conns, |conns|, d)[i..]
  }

  /** Then each connection is visited once exactly when the loop was at most one visit from its end or the last
      was removed; otherwise the last is visited twice, and the one that was next is left out if the removed
      one had been visited. */
  lemma OneRemovalExactly(conns: seq<Conn>, i: nat, d: nat)
    requires Distinct(conns) && i <= |conns| && d < |conns|
    ensures
      var n, seen := |conns|, Visited(conns, i, d);
      (Distinct(seen) <==> i >= n - 1 || d == n - 1) &&
      (forall p, q :: 0 <= p < q < n && seen[p] == seen[q] ==> p == n - 2 && seen[p] == conns[n - 1]) &&
      (forall k :: 0 <= k < n ==>
         (conns[k] in seen <==> k == n - 1 || !((k == d && i <= d) || (k == i && d < i))))
  {
    hide Visited;
    hide Distinct;
    var n, seen := |conns|, Visited(conns, i, d);
    SeenAt(conns, i, d);
    SeenTwice(conns, seen, i, d);
    if i < n - 1 && d < n - 1 {
      Repeats(seen);
    }
    forall k | 0 <= k < n ensures conns[k] in seen <==> k == n - 1 || !((k == d && i <= d) || (k == i && d < i)) {
      SeenExactly(conns, seen, i, d, k);
    }
  }

  lemma SeenAt(conns: seq<Conn>, i: nat, d: nat)
    requires i <= |conns| && d < |conns|
    ensures |Visited(conns, i, d)| == |conns|
    ensures
      forall j {:trigger Visited(conns, i, d)[j]} :: 0 <= j < |conns| ==>
        Visited(conns, i, d)[j] == if i <= j && d <= j < |conns| - 1 then conns[j + 1] else conns[j]
  {
    var r := Shifted(conns, |conns|, d);
    hide Shifted;
  }

  lemma Repeats(seen: seq<Conn>)
    requires |seen| >= 2 && seen[|seen| - 2] == seen[|seen| - 1]
    ensures !Distinct(seen)
  {
  }

  lemma SeenTwice(conns: seq<Conn>, seen: seq<Conn>, i: nat, d: nat)
    requires Distinct(conns) && i <= |conns| && d < |conns| == |seen|
    requires
      forall j {:trigger seen[j]} :: 0 <= j < |conns| ==>
        seen[j] == if i <= j && d <= j < |conns| - 1 then conns[j + 1] else conns[j]
    ensures
      forall p, q :: 0 <= p < q < |conns| && seen[p] == seen[q] ==>
        p == |conns| - 2 && seen[p] == conns[|conns| - 1] && i < |conns| - 1 && d < |conns| - 1
    ensures !(i < |conns| - 1 && d < |conns| - 1) ==> Distinct(seen)
    ensures i < |conns| - 1 && d < |conns| - 1 ==> |conns| >= 2 && seen[|conns| - 2] == seen[|conns| - 1]
  {
    forall p, q | 0 <= p < q < |conns| && seen[p] == seen[q]
      ensures p == |conns| - 2 && seen[p] == conns[|conns| - 1] && i < |conns| - 1 && d < |conns| - 1
    {
      var p', q' := if i <= p && d <= p then p + 1 else p, if i <= q && d <= q < |conns| - 1 then q + 1 else q;
      assert seen[p] == conns[p'] && seen[q] == conns[q'] && p' <= q';
    }
  }

  lemma SeenExactly(conns: seq<Conn>, seen: seq<Conn>, i: nat, d: nat, k: nat)
    requires Distinct(conns) && i <= |conns| && d < |conns| && k < |conns| == |seen|
    requires
      forall j {:trigger seen[j]} :: 0 <= j < |conns| ==>
        seen[j] == if i <= j && d <= j < |conns| - 1 then conns[j + 1] else conns[j]
    ensures conns[k] in seen <==> k == |conns| - 1 || !((k == d && i <= d) || (k == i && d < i))
  {
    var n := |conns|;
    if k == n - 1 {
      assert seen[n - 1] == conns[k];
    } else if !((k == d && i <= d) || (k == i && d < i)) {
      assert seen[if i < k && d < k then k - 1 else k] == conns[k];
    }
  }
}
