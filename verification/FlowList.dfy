/** The UI's list of flows and its index by id (web/client/src/utils/flow.ts, FlowManager). */
module FlowList {
  const MAX := 1000

  datatype Entry = Entry(id: string, no: nat)

  datatype State = State(items: seq<Entry>, index: map<string, Entry>, num: nat)

  const START := State([], map[], 0)

  datatype Step = Adds(id: string) | Clears

  function Do(t: Step, s: State): State {
    match t
    case Clears => State([], map[], s.num)
    case Adds(id) => Trim(Push(s, id))
  }

  function Push(s: State, id: string): State {
    var e := Entry(id, s.num + 1);
    State(s.items + [e], s.index[id := e], s.num + 1)
  }

  /** The oldest flow goes when there are too many. */
  function Trim(s: State): State {
    if |s.items| > MAX then s.(items := s.items[1..], index := s.index - {s.items[0].id}) else s
  }

  function After(steps: seq<Step>): State {
    if steps == [] then START else Do(steps[|steps| - 1], After(steps[..|steps| - 1]))
  }

  /** The map is exactly the index by id of the list. */
  ghost predicate Agrees(s: State) {
    (forall i :: 0 <= i < |s.items| ==> s.items[i].id in s.index && s.index[s.items[i].id] == s.items[i]) &&
    (forall id :: id in s.index ==> exists i :: 0 <= i < |s.items| && s.items[i].id == id)
  }

  /** Later flows have larger numbers, also than flows that were cleared. */
  ghost predicate Numbered(s: State) {
    (forall i, j :: 0 <= i < j < |s.items| ==> s.items[i].no < s.items[j].no) &&
    (forall i :: 0 <= i < |s.items| ==> s.items[i].no <= s.num)
  }

  // ----- what one add does

  lemma PushNumbers(s: State, id: string)
    requires Numbered(s)
    ensures Numbered(Push(s, id))
  {
  }

  lemma TrimNumbers(s: State)
    requires Numbered(s)
    ensures Numbered(Trim(s))
  {
  }

  lemma StepKeepsNumbers(t: Step, s: State)
    requires Numbered(s)
    ensures Numbered(Do(t, s)) && Do(t, s).num == s.num + if t.Adds? then 1 else 0
  {
  }

  /** The oldest entry is the only one with its id. */
  lemma OldestIsAlone(s: State, i: nat)
    requires Agrees(s) && Numbered(s) && 0 < i < |s.items|
    ensures s.items[i].id != s.items[0].id
  {
    assert s.items[0].no < s.items[i].no;
  }

  lemma PushAgrees(s: State, id: string)
    requires Agrees(s) && id !in s.index
    ensures Agrees(Push(s, id))
  {
    var s', n := Push(s, id), |s.items|;
    assert s'.items[n].id == id;
    forall i | 0 <= i < n ensures s'.items[i] == s.items[i] && s.items[i].id in s.index {
    }
    forall k | k in s'.index ensures exists i :: 0 <= i < |s'.items| && s'.items[i].id == k {
      if k in s.index {
        var i :| 0 <= i < n && s.items[i].id == k;
        assert s'.items[i].id == k;
      }
    }
  }

  lemma TrimAgrees(s: State)
    requires Agrees(s) && Numbered(s)
    ensures Agrees(Trim(s))
  {
    if |s.items| > MAX {
      var s' := Trim(s);
      forall i | 0 <= i < |s'.items|
        ensures s'.items[i].id in s'.index && s'.index[s'.items[i].id] == s'.items[i]
      {
        assert s'.items[i] == s.items[i + 1];
        OldestIsAlone(s, i + 1);
      }
      forall k | k in s'.index ensures exists i :: 0 <= i < |s'.items| && s'.items[i].id == k {
        var i :| 0 <= i < |s.items| && s.items[i].id == k;
        assert s'.items[i - 1] == s.items[i];
      }
    }
  }

  /** A map that lost its index does not find it again when the oldest flow goes. */
  lemma TrimCannotRepair(s: State, id: string)
    requires Agrees(s) && Numbered(s) && id in s.index
    ensures !Agrees(Do(Adds(id), s))
  {
    var s1, n := Push(s, id), |s.items|;
    var s2 := Trim(s1);
    var last := |s2.items| - 1;
    assert s1.items[n] == Entry(id, s.num + 1) && s2.items[last] == s1.items[n];
    var i :| 0 <= i < n && s.items[i].id == id;
    assert s1.items[i] == s.items[i];
    if n + 1 > MAX {
      if i == 0 {
        assert id !in s2.index;
      } else {
        assert s2.items[i - 1] == s.items[i];
      }
    } else {
      assert s2.items[i] == s.items[i];
    }
  }

  /** Adding keeps list and map together exactly when the id is not there yet. */
  lemma AddAgreesExactly(s: State, id: string)
    requires Agrees(s) && Numbered(s)
    ensures Agrees(Do(Adds(id), s)) <==> id !in s.index
  {
    hide Agrees;
    hide Numbered;
    if id !in s.index {
      PushAgrees(s, id);
      PushNumbers(s, id);
      hide Push;
      TrimAgrees(Push(s, id));
      hide Trim;
    } else {
      TrimCannotRepair(s, id);
    }
  }

  // ----- what a run leaves

  /** The ids added since the last clear, with their numbers. */
  function Live(steps: seq<Step>): seq<Entry> {
    if steps == [] then [] else
      var before := steps[..|steps| - 1];
      match steps[|steps| - 1]
      case Clears => []
      case Adds(id) => Live(before) + [Entry(id, Count(before) + 1)]
  }

  /** How many flows were ever added. */
  function Count(steps: seq<Step>): nat {
    if steps == [] then 0
    else Count(steps[..|steps| - 1]) + if steps[|steps| - 1].Adds? then 1 else 0
  }

  function Newest(all: seq<Entry>): seq<Entry> { if |all| > MAX then all[|all| - MAX..] else all }

  function Kept(items: seq<Entry>): seq<Entry> { if |items| > MAX then items[1..] else items }

  lemma NewestAppend(all: seq<Entry>, e: Entry)
    ensures Newest(all + [e]) == Kept(Newest(all) + [e])
  {
  }

  lemma NewestIs(all: seq<Entry>)
    ensures Newest(all) == if |all| > 1000 then all[|all| - 1000..] else all
  {
  }

  lemma NewestNone()
    ensures Newest([]) == []
  {
  }

  lemma DoItems(t: Step, s: State)
    ensures t.Clears? ==> Do(t, s).items == [] && Do(t, s).num == s.num
    ensures t.Adds? ==> Do(t, s).items == Kept(s.items + [Entry(t.id, s.num + 1)]) && Do(t, s).num == s.num + 1
  {
  }

  /** The list holds the newest flows since the last clear, at most a thousand of them, in the order they
      came: the one that goes is always the oldest. */
  lemma {:induction false} ListIsNewest(steps: seq<Step>)
    ensures After(steps).items == Newest(Live(steps)) && After(steps).num == Count(steps)
    ensures
      var all := Live(steps);
      After(steps).items == if |all| > 1000 then all[|all| - 1000..] else all
  {
    NewestIs(Live(steps));
    hide Newest;
    hide Kept;
    hide Do;
    NewestNone();
    if steps != [] {
      var before, t := steps[..|steps| - 1], steps[|steps| - 1];
      ListIsNewest(before);
      DoItems(t, After(before));
      if t.Adds? {
        NewestAppend(Live(before), Entry(t.id, Count(before) + 1));
      }
    }
  }

  /** Every id is new when it is added. */
  predicate Fresh(steps: seq<Step>) {
    steps == [] ||
    var before, t := steps[..|steps| - 1], steps[|steps| - 1];
    Fresh(before) && (t.Adds? ==> t.id !in After(before).index)
  }

  /** Over any run of adds of new ids and clears the map is the index of the list, and numbers grow along
      the list. */
  lemma {:induction false} IndexAgrees(steps: seq<Step>)
    requires Fresh(steps)
    ensures Agrees(After(steps)) && Numbered(After(steps))
  {
    if steps != [] {
      var before, t := steps[..|steps| - 1], steps[|steps| - 1];
      IndexAgrees(before);
      StepKeepsNumbers(t, After(before));
      if t.Adds? {
        AddAgreesExactly(After(before), t.id);
      }
      hide Numbered;
    }
  }

  // ----- the objects

  class Flow {
    const id: string
    var no: nat

    constructor (id: string)
      ensures this.id == id
    {
      this.id, no := id, 0;
    }
  }

  ghost predicate Shows(items: seq<Flow>, entries: seq<Entry>)
    reads items
  {
    |items| == |entries| &&
    forall i :: 0 <= i < |items| ==> items[i].id == entries[i].id && items[i].no == entries[i].no
  }

  lemma ShowsAppend(items: seq<Flow>, entries: seq<Entry>, item: Flow)
    requires Shows(items, entries)
    ensures Shows(items + [item], entries + [Entry(item.id, item.no)])
  {
  }

  /** The map leads to objects that show its entries. */
  ghost predicate MapShows(byId: map<string, Flow>, index: map<string, Entry>)
    reads byId.Values
  {
    byId.Keys == index.Keys && forall k :: k in byId ==> byId[k].id == index[k].id && byId[k].no == index[k].no
  }

  /** Where list and map show the same number they hold the same object. */
  ghost predicate SameObjects(items: seq<Flow>, byId: map<string, Flow>)
    reads items, byId.Values
  {
    forall i, k :: 0 <= i < |items| && k in byId && items[i].no == byId[k].no ==> items[i] == byId[k]
  }

  lemma MapAppend(byId: map<string, Flow>, index: map<string, Entry>, item: Flow)
    requires MapShows(byId, index)
    ensures MapShows(byId[item.id := item], index[item.id := Entry(item.id, item.no)])
  {
  }

  /** An object with the largest number joins both. */
  lemma SameAppend(items: seq<Flow>, byId: map<string, Flow>, item: Flow)
    requires SameObjects(items, byId)
    requires forall i :: 0 <= i < |items| ==> items[i].no < item.no
    requires forall k :: k in byId ==> byId[k].no < item.no
    ensures SameObjects(items + [item], byId[item.id := item])
  {
  }

  /** Entries are filed under their id and have been numbered. */
  ghost predicate Filed(s: State) { forall k :: k in s.index ==> s.index[k].id == k && s.index[k].no <= s.num }

  lemma PushFiled(s: State, id: string)
    requires Filed(s)
    ensures Filed(Push(s, id))
  {
  }

  lemma NumbersBounded(s: State)
    requires Numbered(s)
    ensures forall i :: 0 <= i < |s.items| ==> s.items[i].no <= s.num
  {
  }

  class FlowManager {
    var items: seq<Flow>
    var byId: map<string, Flow>
    var num: nat
    ghost var abs: State

    /** The objects show the abstract list and its map. */
    ghost predicate Valid()
      reads this, items, byId.Values
    {
      num == abs.num && Shows(items, abs.items) && MapShows(byId, abs.index) && SameObjects(items, byId) &&
      Numbered(abs) && Filed(abs)
    }

    constructor ()
      ensures Valid() && abs == START
    {
      items, byId, num := [], map[], 0;
      abs := START;
    }

    /** The push and the map entry of add. */
    method Append(item: Flow)
      requires Valid() && item !in items && item !in byId.Values
      modifies this, item`no
      ensures Valid() && abs == Push(old(abs), item.id)
      ensures items == old(items) + [item] && item.no == num == old(num) + 1
    {
      hide Numbered;
      hide Shows;
      hide MapShows;
      hide SameObjects;
      hide Filed;
      PushNumbers(abs, item.id);
      PushFiled(abs, item.id);
      ObjectsBounded();
      num := num + 1;
      item.no := num;
      ShowsAppend(items, abs.items, item);
      MapAppend(byId, abs.index, item);
      SameAppend(items, byId, item);
      items := items + [item];
      byId := byId[item.id := item];
      abs := Push(abs, item.id);
    }

    /** No object of the manager has a larger number than the last. */
    lemma ObjectsBounded()
      requires Valid()
      ensures forall f :: f in items || f in byId.Values ==> f.no <= num
    {
      NumbersBounded(abs);
      hide Numbered;
      hide SameObjects;
      forall f | f in byId.Values ensures f.no <= num {
        var k :| k in byId && byId[k] == f;
      }
    }

    /** The shift and the map delete of add. */
    method Evict()
      requires Valid() && |items| > MAX
      modifies this
      ensures Valid() && abs == Trim(old(abs)) && items == old(items)[1..] && num == old(num)
    {
      TrimNumbers(abs);
      hide Numbered;
      var oldest := items[0];
      abs := Trim(abs);
      items := items[1..];
      byId := byId - {oldest.id};
    }

    /** `item` is a new object; its id may be one that is listed. */
    method Add(item: Flow)
      requires Valid() && item !in items && item !in byId.Values
      modifies this, item`no
      ensures Valid() && abs == Do(Adds(item.id), old(abs))
      ensures items == if |old(items)| + 1 > MAX then old(items)[1..] + [item] else old(items) + [item]
      ensures item.no == num == old(num) + 1
    {
      hide Numbered;
      hide SameObjects;
      hide MapShows;
      hide Filed;
      Append(item);
      if |items| > MAX {
        Evict();
      }
    }

    /** While list and map agree, an id is found exactly when it is listed, and then the listed object is. */
    method Get(id: string) returns (found: bool, item: Flow?)
      requires Valid()
      ensures found <==> id in abs.index
      ensures if found then item != null && Entry(item.id, item.no) == abs.index[id] && item.id == id else item == null
      ensures Agrees(abs) ==>
        (found <==> exists f :: f in items && f.id == id) && (found ==> item in items)
    {
      if id in byId {
        if Agrees(abs) {
          ghost var i :| 0 <= i < |abs.items| && abs.items[i].id == id;
          assert items[i].id == id && items[i] == byId[id];
        }
        return true, byId[id];
      }
      return false, null;
    }

    method Clear()
      requires Valid()
      modifies this
      ensures Valid() && abs == Do(Clears, old(abs)) && items == [] && num == old(num)
    {
      items, byId := [], map[];
      abs := Do(Clears, abs);
    }
  }
}
