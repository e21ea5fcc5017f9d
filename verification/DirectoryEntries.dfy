/**
 The growable array of directory entries: filled in reading order, sorted, checked
 for collisions and compacted in place.
 */
module DirectoryEntries {
  import opened CStrings
  import opened Sorting
  import opened PreferredEntries

  method FoldCase(value: string) returns (result: string)
    ensures result == Fold(value) && |result| == |value|
    ensures forall i :: 0 <= i < |value| ==>
      result[i] as int == if 65 <= value[i] as int <= 90 then value[i] as int + 32 else value[i] as int
  {
    var folded := new char[|value|];
    for index := 0 to |value|
      invariant forall k :: 0 <= k < index ==> folded[k] == ToLower(value[k])
    {
      folded[index] := ToLower(value[index]);
    }
    result := folded[..];
  }

  class EntryList {
    var values: array<Entry>
    var count: nat
    // Entries whose strings have been released, in order.
    ghost var freed: seq<Entry>

    ghost predicate Valid()
      reads this
    {
      count <= values.Length
    }

    ghost function List(): (s: seq<Entry>)
      reads this, values
      requires Valid()
      ensures |s| == count
    {
      values[..count]
    }

    constructor ()
      ensures Valid() && fresh(values) && List() == [] && freed == []
    {
      values := new Entry[0];
      count := 0;
      freed := [];
    }

    /** The capacity is the array's length: 64, then doubling. */
    method Append(name: string)
      requires Valid()
      modifies this, values
      ensures Valid() && List() == old(List()) + [EntryOf(name)]
      ensures values == old(values) || fresh(values)
      ensures freed == old(freed)
    {
      if count == values.Length {
        var capacity := if values.Length == 0 then 64 else values.Length * 2;
        var grown := new Entry[capacity];
        forall i | 0 <= i < count {
          grown[i] := values[i];
        }
        values := grown;
      }
      var folded := FoldCase(name);
      values[count] := Entry(name, folded);
      count := count + 1;
    }

    /** From `start` on, the array still holds what s, the list before compaction, held there. */
    ghost predicate Unread(s: seq<Entry>, start: nat)
      reads this, values
    {
      Valid() && |s| == count && forall i :: start <= i < count ==> values[i] == s[i]
    }

    /** Scans for the end of the run at `start`, reading nothing before it. */
    method RunFrom(start: nat, ghost s: seq<Entry>) returns (end: nat)
      requires Unread(s, start) && start < count
      ensures start < end <= count && end == RunEnd(s, start, start + 1)
    {
      end := start + 1;
      while end < count && values[start].folded == values[end].folded
        invariant start < end <= count
        invariant RunEnd(s, start, end) == RunEnd(s, start, start + 1)
      {
        end := end + 1;
      }
    }

    /** Scans a run for its lowercase entry. */
    method LowerFrom(start: nat, end: nat, ghost s: seq<Entry>) returns (index: nat)
      requires Unread(s, start) && start <= end <= count
      ensures start <= index <= end && index == FindLower(s, start, end)
    {
      index := start;
      while index < end && values[index].name != values[index].folded
        invariant start <= index <= end
        invariant FindLower(s, index, end) == FindLower(s, start, end)
      {
        index := index + 1;
      }
    }

    method Validate() returns (clash: Option<(string, string)>)
      requires Valid()
      ensures clash == FirstClash(List(), 0)
    {
      var start := 0;
      while start < count
        invariant start <= count
        invariant FirstClash(List(), start) == FirstClash(List(), 0)
        decreases count - start
      {
        var end := RunFrom(start, List());
        if end - start > 1 {
          var index := LowerFrom(start, end, List());
          if index == end {
            return Some((values[start].name, values[start + 1].name));
          }
        }
        start := end;
      }
      return None;
    }

    /** Finds the run at `start` and the entry of it to keep. */
    method SelectFrom(start: nat, ghost s: seq<Entry>) returns (end: nat, selected: nat)
      requires Unread(s, start) && start < count
      ensures end == RunEnd(s, start, start + 1) && selected == Selected(s, start, end)
      ensures start <= selected < end <= count
    {
      end := RunFrom(start, s);
      var lower := LowerFrom(start, end, s);
      selected := if lower == end then start else lower;
    }

    /** Moves the selected entry of a run down to `write` and releases the rest of the run. */
    method KeepSelected(start: nat, selected: nat, end: nat, write: nat, ghost s: seq<Entry>)
      requires Unread(s, start) && write <= start <= selected < end <= count
      modifies this`freed, values
      ensures values[..write + 1] == old(values[..write]) + [s[selected]]
      ensures Unread(s, end)
      ensures freed == old(freed) + (s[start..selected] + s[selected + 1..end])
    {
      var preferred := values[selected];
      FreeOthers(start, selected, end);
      assert values[start..selected] == s[start..selected] && values[selected + 1..end] == s[selected + 1..end];
      values[write] := preferred;
    }

    /**
     Compacts one run. The write index is at or below the read index, so what has not
     been read yet stays as it was.
     */
    method CollapseRun(read: nat, write: nat, ghost s: seq<Entry>) returns (end: nat)
      requires Unread(s, read) && write <= read < count
      modifies this`freed, values
      ensures read < end <= count && Unread(s, end)
      ensures values[..write + 1] + Collapsed(s, end) == old(values[..write]) + Collapsed(s, read)
      ensures freed + Dropped(s, end) == old(freed) + Dropped(s, read)
    {
      var selected;
      ghost var kept, before := values[..write], freed;
      end, selected := SelectFrom(read, s);
      KeepSelected(read, selected, end, write, s);
      CollapseStep(s, read, selected, end, kept, before);
    }

    /** Compacts run by run; the first `write` values are the entries kept. */
    method CollapseRuns(ghost s: seq<Entry>) returns (write: nat)
      requires Unread(s, 0)
      modifies this`freed, values
      ensures write <= count && values[..write] == Collapsed(s, 0)
      ensures freed == old(freed) + Dropped(s, 0)
    {
      var read := 0;
      write := 0;
      ghost var kept, dropped := Collapsed(s, 0), freed + Dropped(s, 0);
      assert values[..0] + kept == kept;
      while read < count
        invariant write <= read <= count && Unread(s, read)
        invariant values[..write] + Collapsed(s, read) == kept
        invariant freed + Dropped(s, read) == dropped
        decreases count - read
      {
        read := CollapseRun(read, write, s);
        write := write + 1;
      }
      NoMoreRuns(s, values[..write], freed);
    }

    /** Compacts in place, keeping one entry per run. */
    method Collapse()
      requires Valid()
      modifies this, values
      ensures Valid() && values == old(values)
      ensures List() == Collapsed(old(List()), 0)
      ensures freed == old(freed) + Dropped(old(List()), 0)
      ensures multiset(List()) + multiset(freed) == multiset(old(List())) + multiset(old(freed))
    {
      ghost var s := List();
      var write := CollapseRuns(s);
      count := write;
      NothingLost(s, old(freed));
    }

    /** Releases the strings of every entry of a run but the selected one. */
    method FreeOthers(start: nat, selected: nat, end: nat)
      requires start <= selected < end <= values.Length
      modifies this`freed
      ensures freed == old(freed) + (values[start..selected] + values[selected + 1..end])
    {
      var index := start;
      while index < end
        invariant start <= index <= end
        invariant index <= selected ==> freed == old(freed) + values[start..index]
        invariant index > selected ==>
          selected + 1 <= index && freed == old(freed) + (values[start..selected] + values[selected + 1..index])
      {
        if index != selected {
          freed := freed + [values[index]];
        }
        index := index + 1;
      }
    }

    method Free()
      requires Valid()
      modifies this
      ensures Valid() && fresh(values) && List() == []
      ensures freed == old(freed) + old(List())
      ensures multiset(List()) + multiset(freed) == multiset(old(List())) + multiset(old(freed))
    {
      var index := 0;
      while index < count
        invariant index <= count <= values.Length && freed == old(freed) + values[..index]
        invariant values == old(values) && count == old(count)
      {
        freed := freed + [values[index]];
        index := index + 1;
      }
      values := new Entry[0];
      count := 0;
    }
  }

  lemma NoMoreRuns(s: seq<Entry>, kept: seq<Entry>, dropped: seq<Entry>)
    ensures kept + Collapsed(s, |s|) == kept && dropped + Dropped(s, |s|) == dropped
  {
  }

  lemma NothingLost(s: seq<Entry>, freed: seq<Entry>)
    ensures multiset(Collapsed(s, 0)) + multiset(freed + Dropped(s, 0)) == multiset(s) + multiset(freed)
  {
    assert s[0..] == s;
    KeptPlusDropped(s, 0);
  }

  lemma CollapseStep(s: seq<Entry>, read: nat, selected: nat, end: nat, kept: seq<Entry>, freed: seq<Entry>)
    requires read < |s| && end == RunEnd(s, read, read + 1) && selected == Selected(s, read, end)
    ensures kept + [s[selected]] + Collapsed(s, end) == kept + Collapsed(s, read)
    ensures freed + (s[read..selected] + s[selected + 1..end]) + Dropped(s, end) == freed + Dropped(s, read)
  {
    var one, others := [s[selected]], s[read..selected] + s[selected + 1..end];
    var moreKept, moreDropped := Collapsed(s, end), Dropped(s, end);
    CollapsedAt(s, read);
    DroppedAt(s, read);
    Reassociate(kept, one, moreKept);
    Reassociate(freed, others, moreDropped);
  }

  lemma CollapsedAt(s: seq<Entry>, read: nat)
    requires read < |s|
    ensures var end := RunEnd(s, read, read + 1); Collapsed(s, read) == [s[Selected(s, read, end)]] + Collapsed(s, end)
  {
  }

  lemma DroppedAt(s: seq<Entry>, read: nat)
    requires read < |s|
    ensures var end := RunEnd(s, read, read + 1); var selected := Selected(s, read, end);
      Dropped(s, read) == s[read..selected] + s[selected + 1..end] + Dropped(s, end)
  {
  }

  ghost predicate Listing(names: set<string>, listing: seq<string>) {
    NoDuplicates(listing) && forall n :: n in names <==> n in listing && n != "." && n != ".."
  }

  /** readdir: the directory's names in an order of the system's choosing, dot entries included. */
  method ReadDirectory(names: set<string>) returns (listing: seq<string>)
    requires "." !in names && ".." !in names
    ensures Listing(names, listing)
  {
    listing := [".", ".."];
    assert listing[0] == "." && |listing[1]| == 2;
    var left := names;
    while left != {}
      invariant left <= names && NoDuplicates(listing)
      invariant forall n :: n in listing ==> n !in left
      invariant forall n :: n in names - left <==> n in listing && n != "." && n != ".."
      decreases left
    {
      var n :| n in left;
      listing := listing + [n];
      left := left - {n};
    }
  }

  method ReadEntries(names: set<string>) returns (entries: EntryList)
    requires "." !in names && ".." !in names
    ensures fresh(entries) && fresh(entries.values) && entries.Valid() && entries.freed == []
    ensures EntriesOf(names, entries.List())
  {
    entries := new EntryList();
    var listing := ReadDirectory(names);
    for i := 0 to |listing|
      invariant fresh(entries) && fresh(entries.values) && entries.Valid() && entries.freed == []
      invariant EntriesOf(WithoutDots(listing[..i]), entries.List())
    {
      assert listing[..i + 1] == listing[..i] + [listing[i]];
      if listing[i] != "." && listing[i] != ".." {
        MoreEntries(listing, i, entries.List());
        entries.Append(listing[i]);
      } else {
        assert WithoutDots(listing[..i + 1]) == WithoutDots(listing[..i]);
      }
    }
    assert listing[..|listing|] == listing;
    assert WithoutDots(listing) == names;
  }

  /** Sorts what was read. Whatever the reading order, the result is the one sorted sequence. */
  method SortEntries(entries: EntryList, ghost names: set<string>)
    requires entries.Valid() && EntriesOf(names, entries.List())
    modifies entries.values
    ensures entries.Valid() && entries.List() == SortedEntries(names)
  {
    ghost var read := entries.List();
    CompareEntriesIsTotal();
    QSort(entries.values, entries.count, CompareEntries);
    PermutedEntries(names, read, entries.List());
    SortedEntriesUnique(names, entries.List());
  }

  lemma AtMostOne(names: set<string>, s: seq<Entry>)
    requires EntriesOf(names, s) && |s| <= 1
    ensures s == SortedEntries(names) && Collected(names) == Success(s)
  {
    SortedEntriesUnique(names, s);
    if |s| == 1 {
      assert RunEnd(s, 0, 1) == 1;
      assert Collapsed(s, 1) == [];
      assert FirstClash(s, 1) == None;
    }
  }

  datatype Collecting = Listed | Clash(first: string, second: string) | ReadFailed

  /**
   Collects the preferred entries of a directory that delivers exactly `names` and is then
   read to its end, or fails. The outcome depends on the set of names only, never on the
   order they were read in; every entry made is afterwards either listed or freed, once.
   */
  method CollectPreferred(names: set<string>, readable: bool) returns (entries: EntryList, outcome: Collecting)
    requires "." !in names && ".." !in names
    ensures fresh(entries) && fresh(entries.values) && entries.Valid()
    ensures outcome.ReadFailed? <==> !readable
    ensures outcome.Listed? ==> Collected(names) == Success(entries.List())
    ensures outcome.Clash? ==> Collected(names) == Failure((outcome.first, outcome.second))
    ensures !outcome.Listed? ==> entries.List() == []
    ensures multiset(entries.List()) + multiset(entries.freed) == multiset(SortedEntries(names))
  {
    entries := ReadEntries(names);
    SameEntries(names, entries.List(), SortedEntries(names));
    if !readable {
      entries.Free();
      return entries, ReadFailed;
    }
    outcome := Listed;
    if entries.count > 1 {
      SortEntries(entries, names);
      var clash := entries.Validate();
      if clash.Some? {
        entries.Free();
        outcome := Clash(clash.value.0, clash.value.1);
      } else {
        entries.Collapse();
      }
    } else {
      AtMostOne(names, entries.List());
    }
  }

  ghost function WithoutDots(listing: seq<string>): set<string> {
    set n | n in listing && n != "." && n != ".."
  }

  lemma MoreEntries(listing: seq<string>, i: nat, s: seq<Entry>)
    requires NoDuplicates(listing) && i < |listing| && listing[i] != "." && listing[i] != ".."
    requires EntriesOf(WithoutDots(listing[..i]), s)
    ensures EntriesOf(WithoutDots(listing[..i + 1]), s + [EntryOf(listing[i])])
  {
    assert listing[..i + 1] == listing[..i] + [listing[i]];
    assert listing[i] !in listing[..i];
  }
}
