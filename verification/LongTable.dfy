/** What the table of long options holds: every name of every entry, with the number of its entry, at
    the place that follows from the names counted before it -- and nothing else. */
module LongTable {
  import opened Options
  import opened ArgTables
  import opened Wrappers

  function NamesOf(e: Entry): seq<string> {
    if e.longopts.Some? then Names(e.longopts.value) else []
  }

  /** How many names the entries before `i` have. */
  function Offset(entries: seq<Entry>, i: nat): nat
    requires i <= |entries|
  {
    if i == 0 then 0 else Offset(entries, i - 1) + |NamesOf(entries[i - 1])|
  }

  /** Name `k` of entry `i` has its place. */
  ghost predicate Placed(entries: seq<Entry>, longs: seq<LongOption>, from: nat, i: nat, k: nat)
    requires from <= i < |entries| && k < |NamesOf(entries[i])|
  {
    var at := Offset(entries, i) + k - Offset(entries, from);
    0 <= at < |longs| && longs[at] == LongOption(NamesOf(entries[i])[k], HasArgOf(entries[i]), i)
  }

  ghost predicate Holds(entries: seq<Entry>, longs: seq<LongOption>, from: nat)
    requires from <= |entries|
  {
    && |longs| == Offset(entries, |entries|) - Offset(entries, from)
    && forall i, k :: from <= i < |entries| && 0 <= k < |NamesOf(entries[i])| ==> Placed(entries, longs, from, i, k)
  }

  ghost predicate IsLongTable(entries: seq<Entry>, longs: seq<LongOption>) {
    Holds(entries, longs, 0)
  }

  lemma {:induction false} OffsetGrows(entries: seq<Entry>, i: nat, j: nat)
    requires i <= j <= |entries|
    ensures Offset(entries, i) <= Offset(entries, j)
    ensures i < j ==> Offset(entries, i) + |NamesOf(entries[i])| <= Offset(entries, j)
    decreases j
  {
    hide NamesOf;
    if i < j {
      OffsetGrows(entries, i, j - 1);
    }
  }

  lemma {:induction false} NamedAt(names: seq<string>, hasArg: HasArg, val: int, k: nat)
    requires k < |names|
    ensures Named(names, hasArg, val)[k] == LongOption(names[k], hasArg, val)
  {
    if k > 0 {
      NamedAt(names[1..], hasArg, val, k - 1);
    }
  }

  lemma {:induction false} LongOptionsHold(entries: seq<Entry>, from: nat)
    requires from <= |entries|
    ensures Holds(entries, LongOptions(entries, from), from)
    decreases |entries| - from
  {
    if from < |entries| {
      hide *;
      OwnFirst(entries, from);
      LongOptionsHold(entries, from + 1);
      OwnHeld(entries, from, LongOptions(entries, from + 1));
    } else {
      assert LongOptions(entries, from) == [];
    }
  }

  lemma OwnHeld(entries: seq<Entry>, from: nat, later: seq<LongOption>)
    requires from < |entries| && Holds(entries, later, from + 1)
    ensures Holds(entries, Named(NamesOf(entries[from]), HasArgOf(entries[from]), from) + later, from)
  {
    hide NamesOf, Named, HasArgOf;
    var e := entries[from];
    var own := Named(NamesOf(e), HasArgOf(e), from);
    OffsetGrows(entries, from + 1, |entries|);
    forall i, k | from <= i < |entries| && 0 <= k < |NamesOf(entries[i])|
      ensures Placed(entries, own + later, from, i, k)
    {
      if i == from {
        NamedAt(NamesOf(e), HasArgOf(e), from, k);
      } else {
        assert Placed(entries, later, from + 1, i, k);
        OffsetGrows(entries, from + 1, i);
      }
    }
  }

  lemma OwnFirst(entries: seq<Entry>, from: nat)
    requires from < |entries|
    ensures LongOptions(entries, from)
      == Named(NamesOf(entries[from]), HasArgOf(entries[from]), from) + LongOptions(entries, from + 1)
  {
    assert Named([], HasArgOf(entries[from]), from) == [];
  }

  /** The table that is built holds the names of all entries. */
  lemma LongOptionsTable(entries: seq<Entry>)
    ensures IsLongTable(entries, LongOptions(entries, 0))
  {
    LongOptionsHold(entries, 0);
  }

  /** Name `k` of entry `i` in the table. */
  lemma PlacedAt(entries: seq<Entry>, longs: seq<LongOption>, i: nat, k: nat)
    requires IsLongTable(entries, longs) && i < |entries| && k < |NamesOf(entries[i])|
    ensures var at := Offset(entries, i) + k;
      at < |longs| && longs[at] == LongOption(NamesOf(entries[i])[k], HasArgOf(entries[i]), i)
  {
    hide NamesOf, HasArgOf;
    assert Placed(entries, longs, 0, i, k);
  }

  /** Whatever stands in the table is a name of the entry whose number it has. */
  lemma OwnerAt(entries: seq<Entry>, longs: seq<LongOption>, at: nat) returns (i: nat, k: nat)
    requires IsLongTable(entries, longs) && at < |longs|
    ensures i < |entries| && k < |NamesOf(entries[i])| && at == Offset(entries, i) + k
    ensures longs[at] == LongOption(NamesOf(entries[i])[k], HasArgOf(entries[i]), i)
  {
    hide NamesOf, HasArgOf;
    i := OwnerBelow(entries, |entries|, at);
    k := at - Offset(entries, i);
    PlacedAt(entries, longs, i, k);
  }

  lemma {:induction false} OwnerBelow(entries: seq<Entry>, n: nat, at: nat) returns (i: nat)
    requires n <= |entries| && at < Offset(entries, n)
    ensures i < n && Offset(entries, i) <= at < Offset(entries, i) + |NamesOf(entries[i])|
    decreases n
  {
    if at < Offset(entries, n - 1) {
      i := OwnerBelow(entries, n - 1, at);
    } else {
      i := n - 1;
    }
  }
}
