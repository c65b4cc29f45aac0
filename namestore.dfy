/** The older record store (dashboard/interface/base.py): entries and
    baselines live in dictionaries keyed by the entry's name, so a later
    entry with the same name replaces the earlier one. */
module NameStore {
  import opened Wrappers

  /** One measurement of this variant; timestamps are integers. */
  datatype Entry = Entry(name: string, performance: real, timestamp: int)

  /** `Entry(name, performance, timestamp)`: Python's `timestamp or now`
      falls back to the clock reading `now` when no timestamp is given. */
  function NewEntry(name: string, performance: real, timestamp: Option<int>, now: int): (e: Entry)
    ensures e.name == name && e.performance == performance
    ensures e.timestamp == (if timestamp.Some? then timestamp.value else now)
  {
    match timestamp
    case Some(t) => Entry(name, performance, t)
    case None => Entry(name, performance, now)
  }

  class TabularInterface {
    var baselines: map<string, Entry>
    var entries: map<string, Entry>
    /** The entries and baselines added so far, in call order. */
    ghost var addedEntries: seq<Entry>
    ghost var addedBaselines: seq<Entry>

    /** Each dictionary is what adding its history in order leaves. */
    ghost predicate Valid()
      reads this
    {
      entries == Keyed(addedEntries) && baselines == Keyed(addedBaselines)
    }

    constructor ()
      ensures Valid()
      ensures baselines == map[] && entries == map[]
      ensures addedEntries == [] && addedBaselines == []
    {
      baselines := map[];
      entries := map[];
      addedEntries := [];
      addedBaselines := [];
    }

    /** `add(e)`: `entries[e.name] = e`. */
    method Add(e: Entry)
      requires Valid()
      modifies this
      ensures Valid()
      ensures entries == old(entries)[e.name := e]
      ensures baselines == old(baselines)
      ensures addedEntries == old(addedEntries) + [e] && addedBaselines == old(addedBaselines)
    {
      entries := entries[e.name := e];
      addedEntries := addedEntries + [e];
      assert addedEntries[..|addedEntries| - 1] == old(addedEntries);
    }

    /** `add_baseline(e)`: `baselines[e.name] = e`. */
    method AddBaseline(e: Entry)
      requires Valid()
      modifies this
      ensures Valid()
      ensures baselines == old(baselines)[e.name := e]
      ensures entries == old(entries)
      ensures addedBaselines == old(addedBaselines) + [e] && addedEntries == old(addedEntries)
    {
      baselines := baselines[e.name := e];
      addedBaselines := addedBaselines + [e];
      assert addedBaselines[..|addedBaselines| - 1] == old(addedBaselines);
    }
  }

  /** The dictionary that adding `es` in order to an empty store leaves. */
  function Keyed(es: seq<Entry>): map<string, Entry> {
    if es == [] then map[]
    else Keyed(es[..|es| - 1])[es[|es| - 1].name := es[|es| - 1]]
  }

  /** The keys are exactly the names added. */
  lemma {:induction false} KeyedKeys(es: seq<Entry>)
    ensures forall k :: k in Keyed(es) <==> exists i :: 0 <= i < |es| && es[i].name == k
  {
    if es != [] {
      var init := es[..|es| - 1];
      KeyedKeys(init);
      forall k ensures k in Keyed(es) <==> exists i :: 0 <= i < |es| && es[i].name == k {
        if k in Keyed(init) {
          var i :| 0 <= i < |init| && init[i].name == k;
          assert es[i] == init[i];
        }
        if exists i :: 0 <= i < |es| && es[i].name == k {
          var i :| 0 <= i < |es| && es[i].name == k;
          if i < |init| {
            assert init[i] == es[i];
          }
        }
      }
    }
  }

  /** The last write wins: a name maps to the last entry added under it. */
  lemma {:induction false} KeyedLastWins(es: seq<Entry>, i: nat)
    requires i < |es|
    requires forall j :: i < j < |es| ==> es[j].name != es[i].name
    ensures es[i].name in Keyed(es) && Keyed(es)[es[i].name] == es[i]
  {
    if i < |es| - 1 {
      var init := es[..|es| - 1];
      KeyedLastWins(init, i);
      assert init[i] == es[i];
    }
  }

  /** Adding an entry whose name is already present replaces the old entry
      and leaves the number of names unchanged; a new name adds one. */
  lemma KeyedSize(es: seq<Entry>, e: Entry)
    ensures |Keyed(es + [e]).Keys| == |Keyed(es).Keys| + (if e.name in Keyed(es) then 0 else 1)
  {
    assert (es + [e])[..|es|] == es;
    var m := Keyed(es);
    if e.name in m {
      assert m[e.name := e].Keys == m.Keys;
    } else {
      assert m[e.name := e].Keys == m.Keys + {e.name};
    }
  }
}
