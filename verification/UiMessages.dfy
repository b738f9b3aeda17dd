/** Which messages a UI connection is sent (web/conn.go): the announcement of a proxied connection, and the
    messages after which a flow has to wait. */
module UiMessages {
  import opened Strings

  type Id = string

  // ----- announcing connections

  /** An attempt to send the message about a connection; `sent` when it went out. */
  datatype Note = Announced(id: Id, sent: bool) | Closed(id: Id, sent: bool)

  /** The last that was said about a connection is that it exists. */
  predicate Open(log: seq<Note>, id: Id) {
    log != [] &&
    var n := log[|log| - 1];
    if n.id == id then n.Announced? else Open(log[..|log| - 1], id)
  }

  ghost predicate ClosedBetween(log: seq<Note>, i: nat, j: nat, id: Id) {
    exists k :: i < k < j && k < |log| && log[k].Closed? && log[k].id == id
  }

  /** A connection is announced again only after its end was reported. */
  ghost predicate Alternates(log: seq<Note>) {
    forall i, j :: 0 <= i < j < |log| && log[i].Announced? && log[j].Announced? && log[i].id == log[j].id ==>
      ClosedBetween(log, i, j, log[i].id)
  }

  /** Where an open connection was announced last, and that nothing ended it since; and the reverse. */
  lemma {:induction false} OpenMeans(log: seq<Note>, id: Id)
    ensures
      Open(log, id) <==>
      exists i: nat ::
        i < |log| && log[i] in {Announced(id, true), Announced(id, false)} && !ClosedBetween(log, i, |log|, id)
  {
    if log != [] {
      var n, before := |log| - 1, log[..|log| - 1];
      OpenMeans(before, id);
      if log[n].id == id {
        if log[n].Announced? {
          assert !ClosedBetween(log, n, |log|, id);
        } else {
          assert forall i: nat :: i < n ==> i < n < |log| && ClosedBetween(log, i, |log|, id);
        }
      } else {
        forall i: nat | i < n
          ensures log[i] == before[i] && (ClosedBetween(log, i, |log|, id) <==> ClosedBetween(before, i, n, id))
        {
          if ClosedBetween(log, i, |log|, id) {
            var k :| i < k < |log| && log[k].Closed? && log[k].id == id;
            assert before[k].Closed?;
          }
          if ClosedBetween(before, i, n, id) {
            var k :| i < k < n && before[k].Closed? && before[k].id == id;
            assert log[k].Closed?;
          }
        }
      }
    }
  }

  lemma BetweenAppend(log: seq<Note>, n: Note, i: nat, j: nat, id: Id)
    requires j <= |log|
    ensures ClosedBetween(log + [n], i, j, id) <==> ClosedBetween(log, i, j, id)
  {
    if ClosedBetween(log + [n], i, j, id) {
      var k :| i < k < j && (log + [n])[k].Closed? && (log + [n])[k].id == id;
      assert log[k].Closed?;
    }
    if ClosedBetween(log, i, j, id) {
      var k :| i < k < j && log[k].Closed? && log[k].id == id;
      assert (log + [n])[k].Closed?;
    }
  }

  /** What may be said next: anything but the existence of a connection that is already announced. */
  lemma NextNote(log: seq<Note>, n: Note)
    requires Alternates(log)
    ensures Alternates(log + [n]) <==> n.Closed? || !Open(log, n.id)
  {
    var log', last := log + [n], |log|;
    forall i: nat, j: nat, id | j <= |log| ensures ClosedBetween(log', i, j, id) <==> ClosedBetween(log, i, j, id) {
      BetweenAppend(log, n, i, j, id);
    }
    OpenMeans(log, n.id);
    if n.Announced? && Open(log, n.id) {
      var i: nat :|
        i < |log| && log[i] in {Announced(n.id, true), Announced(n.id, false)} && !ClosedBetween(log, i, last, n.id);
      assert log'[i] == log[i] && log'[last] == n;
      assert !ClosedBetween(log', i, last, log'[i].id);
    } else {
      hide ClosedBetween;
      forall i, j | 0 <= i < j < |log'| && log'[i].Announced? && log'[j].Announced? && log'[i].id == log'[j].id
        ensures ClosedBetween(log', i, j, log'[i].id)
      {
        assert log'[i] == log[i];
        if j < last {
          assert log'[j] == log[j];
          assert ClosedBetween(log, i, j, log[i].id);
        } else {
          assert log[i] == Announced(n.id, true) || log[i] == Announced(n.id, false);
        }
      }
    }
  }

  class Announcer {
    var sendConnMessageMap: set<Id>  // the keys that map to true
    ghost var log: seq<Note>

    ghost predicate Valid()
      reads this
    {
      (forall id :: id in sendConnMessageMap <==> Open(log, id)) && Alternates(log)
    }

    constructor ()
      ensures Valid() && log == []
    {
      sendConnMessageMap, log := {}, [];
    }

    /** trySendConnMessage; `sends` says whether the message could be made and written. */
    method TrySendConnMessage(key: Id, sends: bool)
      requires Valid()
      modifies this
      ensures Valid()
      ensures log == if Open(old(log), key) then old(log) else old(log) + [Announced(key, sends)]
    {
      if key in sendConnMessageMap {
        return;
      }
      NextNote(log, Announced(key, sends));
      sendConnMessageMap := sendConnMessageMap + {key};
      log := log + [Announced(key, sends)];
    }

    /** whenConnClose */
    method WhenConnClose(key: Id, sends: bool)
      requires Valid()
      modifies this
      ensures Valid() && log == old(log) + [Closed(key, sends)]
    {
      NextNote(log, Closed(key, sends));
      sendConnMessageMap := sendConnMessageMap - {key};
      log := log + [Closed(key, sends)];
    }
  }

  // ----- break points

  /** `action` has bit 1 for requests and bit 2 for responses; an empty method is any. */
  datatype Rule = Rule(verb: string, url: string, action: nat)

  /** The rule stops messages of this type about a request with this method and URL. */
  predicate Intercepts(r: Rule, kind: nat, verb: string, url: string) {
    r.url != "" && (r.verb == "" || r.verb == verb) && Contains(url, r.url) &&
    ((kind == 2 && r.action % 2 == 1) || (kind == 4 && r.action / 2 % 2 == 1))
  }

  /** isIntercpt */
  method IsIntercept(rules: seq<Rule>, kind: nat, verb: string, url: string) returns (b: bool)
    ensures b <==> exists i :: 0 <= i < |rules| && Intercepts(rules[i], kind, verb, url)
  {
    hide Contains;
    if kind != 2 && kind != 4 {
      return false;
    }
    var action := if kind == 2 then 1 else 2;
    for i := 0 to |rules|
      invariant forall j :: 0 <= j < i ==> !Intercepts(rules[j], kind, verb, url)
    {
      var rule := rules[i];
      if rule.url == "" || rule.action / action % 2 == 0 {
        continue;
      }
      if rule.verb != "" && rule.verb != verb {
        continue;
      }
      if Contains(url, rule.url) {
        return true;
      }
    }
    return false;
  }

  // ----- messages a flow waits for

  /** One connection's part in a round: whether its rules intercept the flow, and whether writing works. */
  datatype Conn = Conn(intercepts: bool, writes: bool)

  /** The mark the message carries when it comes to connection `k`, and whether the flow waits there. */
  datatype Visit = Visit(marked: bool, waits: bool)

  class MessageFlow {
    var waitIntercept: bool

    constructor ()
      ensures !waitIntercept
    {
      waitIntercept := false;
    }
  }

  ghost predicate AnyBefore(conns: seq<Conn>, k: nat) { exists j :: 0 <= j < k && j < |conns| && conns[j].intercepts }

  lemma AnyNext(conns: seq<Conn>, k: nat)
    ensures !AnyBefore(conns, 0)
    ensures k < |conns| ==> AnyBefore(conns, k + 1) == (AnyBefore(conns, k) || conns[k].intercepts)
  {
  }

  /** writeMessageMayWait */
  method WriteMessageMayWait(msg: MessageFlow, c: Conn) returns (v: Visit)
    modifies msg
    ensures msg.waitIntercept == (old(msg.waitIntercept) || c.intercepts)
    ensures v == Visit(msg.waitIntercept, c.writes && msg.waitIntercept)
  {
    if c.intercepts {
      msg.waitIntercept := true;
    }
    // conn.WriteMessage
    if !c.writes {
      return Visit(msg.waitIntercept, false);
    }
    v := Visit(msg.waitIntercept, msg.waitIntercept);
  }

  /** sendFlowMayWait: a message that can be made visits all connections, and nothing takes its mark back. */
  method SendFlowMayWait(conns: seq<Conn>, builds: bool) returns (visits: seq<Visit>)
    ensures |visits| == if builds then |conns| else 0
    ensures forall k :: 0 <= k < |visits| ==>
      visits[k].marked == AnyBefore(conns, k + 1) && visits[k].waits == (conns[k].writes && AnyBefore(conns, k + 1))
  {
    hide AnyBefore;
    AnyNext(conns, 0);
    visits := [];
    if |conns| == 0 || !builds {
      return;
    }
    var msg := new MessageFlow();
    for i := 0 to |conns|
      invariant |visits| == i && msg.waitIntercept == AnyBefore(conns, i)
      invariant forall k :: 0 <= k < i ==>
        visits[k].marked == AnyBefore(conns, k + 1) && visits[k].waits == (conns[k].writes && AnyBefore(conns, k + 1))
    {
      var v := WriteMessageMayWait(msg, conns[i]);
      AnyNext(conns, i);
      visits := visits + [v];
    }
  }

  /** A flow waits just at the connections that intercept it exactly when no connection that does not comes,
      writable, after one that does. */
  lemma WaitsWhereIntercepted(conns: seq<Conn>)
    ensures
      (forall k :: 0 <= k < |conns| ==> (conns[k].writes ==> (AnyBefore(conns, k + 1) <==> conns[k].intercepts))) <==>
      (forall j, k :: 0 <= j < k < |conns| && conns[j].intercepts && conns[k].writes ==> conns[k].intercepts)
  {
    if forall j, k :: 0 <= j < k < |conns| && conns[j].intercepts && conns[k].writes ==> conns[k].intercepts {
      forall k | 0 <= k < |conns| && conns[k].writes ensures AnyBefore(conns, k + 1) <==> conns[k].intercepts {
        if conns[k].intercepts {
          assert AnyBefore(conns, k + 1);
        }
      }
    } else {
      var j, k :| 0 <= j < k < |conns| && conns[j].intercepts && conns[k].writes && !conns[k].intercepts;
      assert AnyBefore(conns, k + 1);
    }
  }
}
