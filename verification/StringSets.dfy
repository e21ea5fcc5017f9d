/** The sorted string arrays that serve as sets: linear insertion, binary search, removal by shifting. */
module StringSets {
  import opened CStrings

  ghost predicate Increasing(s: seq<string>) {
    forall i, j :: 0 <= i < j < |s| ==> StrCmp(s[i], s[j]) < 0
  }

  ghost function ElementsOf(s: seq<string>): set<string> {
    set x | x in s
  }

  lemma IncreasingDistinct(s: seq<string>)
    requires Increasing(s)
    ensures forall i, j :: 0 <= i < j < |s| ==> s[i] != s[j]
  {
    forall i, j | 0 <= i < j < |s|
      ensures s[i] != s[j]
    {
      StrCmpZero(s[i], s[j]);
    }
  }

  /** Two increasing lists with every element of the first below every element of the second. */
  lemma JoinIncreasing(s: seq<string>, t: seq<string>)
    requires Increasing(s) && Increasing(t)
    requires forall i, j :: 0 <= i < |s| && 0 <= j < |t| ==> StrCmp(s[i], t[j]) < 0
    ensures Increasing(s + t)
  {
  }

  /** Putting a value between the smaller and the larger ones keeps the order. */
  lemma InsertKeepsIncreasing(s: seq<string>, value: string, position: nat)
    requires Increasing(s) && position <= |s|
    requires forall i :: 0 <= i < position ==> StrCmp(s[i], value) < 0
    requires position < |s| ==> StrCmp(value, s[position]) < 0
    ensures Increasing(s[..position] + [value] + s[position..])
  {
    forall i | position < i < |s|
      ensures StrCmp(value, s[i]) < 0
    {
      StrCmpStrictTransitive(value, s[position], s[i]);
    }
    JoinIncreasing(s[..position], [value]);
    JoinIncreasing(s[..position] + [value], s[position..]);
  }

  lemma EmptyElements(s: seq<string>)
    ensures ElementsOf(s) == {} <==> s == []
  {
    if s != [] {
      assert s[0] in ElementsOf(s);
    }
  }

  /** A set has only one increasing listing. */
  lemma {:induction false} IncreasingUnique(s: seq<string>, t: seq<string>)
    requires Increasing(s) && Increasing(t) && ElementsOf(s) == ElementsOf(t)
    ensures s == t
  {
    EmptyElements(s);
    EmptyElements(t);
    if s != [] {
      assert s[0] in ElementsOf(t);
      assert t[0] in ElementsOf(s);
      LeastFirst(s, t[0]);
      LeastFirst(t, s[0]);
      StrCmpFlip(s[0], t[0]);
      StrCmpZero(s[0], t[0]);
      TailElements(s);
      TailElements(t);
      IncreasingUnique(s[1..], t[1..]);
      assert s == [s[0]] + s[1..] && t == [t[0]] + t[1..];
    }
  }

  lemma LeastFirst(s: seq<string>, x: string)
    requires Increasing(s) && x in s
    ensures StrCmp(s[0], x) <= 0
  {
    StrCmpZero(s[0], s[0]);
  }

  lemma TailElements(s: seq<string>)
    requires Increasing(s) && s != []
    ensures ElementsOf(s[1..]) == ElementsOf(s) - {s[0]} && Increasing(s[1..])
  {
    IncreasingDistinct(s);
    forall x
      ensures x in s[1..] <==> x in s && x != s[0]
    {
      assert s == [s[0]] + s[1..];
    }
  }

  /** The increasing listing of a set. */
  ghost function SortedList(names: set<string>): (s: seq<string>)
    ensures Increasing(s) && ElementsOf(s) == names
  {
    if names == {} then [] else
      var least := Least(names);
      var rest := SortedList(names - {least});
      PrependLeast(names, least, rest);
      [least] + rest
  }

  ghost function Least(names: set<string>): (least: string)
    requires names != {}
    ensures least in names && forall x :: x in names ==> StrCmp(least, x) <= 0
  {
    var x :| x in names;
    StrCmpZero(x, x);
    if names == {x} then x
    else
      var y := Least(names - {x});
      LesserOf(names, x, y);
      if StrCmp(x, y) <= 0 then x else y
  }

  lemma LesserOf(names: set<string>, x: string, y: string)
    requires x in names && y in names && forall z :: z in names - {x} ==> StrCmp(y, z) <= 0
    ensures var least := if StrCmp(x, y) <= 0 then x else y;
      forall z :: z in names ==> StrCmp(least, z) <= 0
  {
    forall z | z in names
      ensures StrCmp(if StrCmp(x, y) <= 0 then x else y, z) <= 0
    {
      StrCmpZero(x, x);
      StrCmpFlip(x, y);
      if z != x && StrCmp(x, y) <= 0 {
        StrCmpTransitive(x, y, z);
      }
    }
  }

  lemma PrependLeast(names: set<string>, least: string, rest: seq<string>)
    requires least in names && (forall x :: x in names ==> StrCmp(least, x) <= 0)
    requires Increasing(rest) && ElementsOf(rest) == names - {least}
    ensures Increasing([least] + rest) && ElementsOf([least] + rest) == names
  {
    forall i | 0 <= i < |rest|
      ensures StrCmp(least, rest[i]) < 0
    {
      assert rest[i] in ElementsOf(rest);
      StrCmpZero(least, rest[i]);
    }
    forall x
      ensures x in [least] + rest <==> x in names
    {
      assert x in rest <==> x in ElementsOf(rest);
    }
  }

  class StringSet {
    var values: array<string>
    var count: nat
    ghost var Repr: set<object>

    ghost predicate Valid()
      reads this, Repr
      ensures Valid() ==> this in Repr && count <= values.Length
    {
      Repr == {this, values} && count <= values.Length && Increasing(values[..count])
    }

    ghost function List(): (s: seq<string>)
      reads this, values
      requires count <= values.Length
      ensures |s| == count
    {
      values[..count]
    }

    ghost function Elements(): set<string>
      reads this, values
      requires count <= values.Length
    {
      ElementsOf(values[..count])
    }

    constructor ()
      ensures Valid() && fresh(Repr) && Elements() == {}
    {
      values := new string[0];
      count := 0;
      Repr := {this, values};
    }

    /** Finds where the value belongs: after all smaller elements. */
    method Position(value: string) returns (position: nat)
      requires Valid()
      ensures position <= count
      ensures forall i :: 0 <= i < position ==> StrCmp(values[i], value) < 0
      ensures position < count ==> StrCmp(values[position], value) >= 0
    {
      position := 0;
      while position < count && StrCmp(values[position], value) < 0
        invariant position <= count
        invariant forall i :: 0 <= i < position ==> StrCmp(values[i], value) < 0
      {
        position := position + 1;
      }
    }

    /** Doubles the capacity, from 32, when the array is full. */
    method MakeRoom()
      requires Valid()
      modifies this`values, this`Repr
      ensures Valid() && fresh(Repr - old(Repr)) && count < values.Length
      ensures List() == old(List())
    {
      if count == values.Length {
        var capacity := if values.Length == 0 then 32 else values.Length * 2;
        var grown := new string[capacity];
        forall i | 0 <= i < count {
          grown[i] := values[i];
        }
        assert grown[..count] == values[..count];
        values := grown;
        Repr := {this, values};
      }
    }

    /** memmove one place up, from the end backwards. */
    method ShiftUp(position: nat)
      requires position <= count < values.Length
      modifies values
      ensures values[..position] == old(values[..position])
      ensures values[position + 1..count + 1] == old(values[position..count])
    {
      var i := count;
      ghost var s := values[..count];
      while i > position
        invariant position <= i <= count
        invariant forall k :: 0 <= k < i ==> values[k] == s[k]
        invariant forall k :: i < k <= count ==> values[k] == s[k - 1]
      {
        values[i] := values[i - 1];
        i := i - 1;
      }
      assert values[..position] == s[..position];
      assert values[position + 1..count + 1] == s[position..];
    }

    method Insert(value: string)
      requires Valid()
      modifies Repr
      ensures Valid() && fresh(Repr - old(Repr))
      ensures Elements() == old(Elements()) + {value}
    {
      var position := Position(value);
      if position < count {
        StrCmpZero(values[position], value);
        StrCmpFlip(values[position], value);
        if values[position] == value {
          assert value in values[..count];
          return;
        }
      }
      InsertAt(position, value);
    }

    method InsertAt(position: nat, value: string)
      requires Valid() && position <= count
      requires forall i :: 0 <= i < position ==> StrCmp(values[i], value) < 0
      requires position < count ==> StrCmp(value, values[position]) < 0
      modifies Repr
      ensures Valid() && fresh(Repr - old(Repr))
      ensures List() == old(List()[..position] + [value] + List()[position..])
      ensures Elements() == old(Elements()) + {value}
    {
      ghost var s := List();
      InsertKeepsIncreasing(s, value, position);
      InsertedElements(s, value, position);
      MakeRoom();
      PlaceAt(position, value, s);
      count := count + 1;
    }

    /** Shifts the rest up and stores the value in the gap. */
    method PlaceAt(position: nat, value: string, ghost s: seq<string>)
      requires position <= count < values.Length && values[..count] == s
      modifies values
      ensures values[..count + 1] == s[..position] + [value] + s[position..]
    {
      assert values[..position] == s[..position] && values[position..count] == s[position..];
      ShiftUp(position);
      values[position] := value;
      ghost var t := values[..count + 1];
      assert t[..position] == values[..position] && t[position + 1..] == values[position + 1..count + 1];
      InsertedList(s, t, value, position);
    }

    /** Binary search. */
    method Contains(value: string) returns (found: bool)
      requires Valid()
      ensures found <==> value in Elements()
    {
      var low, high := 0, count;
      while low < high
        invariant low <= high <= count
        invariant forall i :: 0 <= i < low ==> values[i] != value
        invariant forall i :: high <= i < count ==> values[i] != value
      {
        var middle := low + (high - low) / 2;
        var comparison := StrCmp(values[middle], value);
        StrCmpZero(values[middle], value);
        if comparison == 0 {
          assert value in values[..count];
          return true;
        }
        if comparison < 0 {
          BelowMiddle(List(), middle, value);
          low := middle + 1;
        } else {
          AboveMiddle(List(), middle, value);
          high := middle;
        }
      }
      return false;
    }

    /** memmove one place down, over the removed element. */
    method ShiftDown(position: nat)
      requires position < count <= values.Length
      modifies values
      ensures forall k :: 0 <= k < position ==> values[k] == old(values[k])
      ensures forall k :: position <= k < count - 1 ==> values[k] == old(values[k + 1])
    {
      var i := position;
      while i + 1 < count
        invariant position <= i < count
        invariant forall k :: 0 <= k < position ==> values[k] == old(values[k])
        invariant forall k :: position <= k < i ==> values[k] == old(values[k + 1])
        invariant forall k :: i < k < count ==> values[k] == old(values[k])
      {
        values[i] := values[i + 1];
        i := i + 1;
      }
    }

    method RemoveAt(position: nat)
      requires Valid() && position < count
      modifies this`count, values
      ensures Valid() && values == old(values) && count == old(count) - 1
      ensures List() == old(List()[..position] + List()[position + 1..])
      ensures Elements() == old(Elements() - {values[position]})
    {
      ghost var s := List();
      RemovedElements(s, position);
      ShiftDown(position);
      count := count - 1;
      assert values[..count] == s[..position] + s[position + 1..];
    }
  }

  lemma InsertedElements(s: seq<string>, value: string, position: nat)
    requires position <= |s|
    ensures ElementsOf(s[..position] + [value] + s[position..]) == ElementsOf(s) + {value}
  {
    assert s == s[..position] + s[position..];
  }

  lemma InsertedList(s: seq<string>, t: seq<string>, value: string, position: nat)
    requires position <= |s| && |t| == |s| + 1 && t[position] == value
    requires t[..position] == s[..position] && t[position + 1..] == s[position..]
    ensures t == s[..position] + [value] + s[position..]
  {
    assert t == t[..position] + [t[position]] + t[position + 1..];
  }

  lemma RemovedElements(s: seq<string>, position: nat)
    requires Increasing(s) && position < |s|
    ensures var t := s[..position] + s[position + 1..]; Increasing(t) && ElementsOf(t) == ElementsOf(s) - {s[position]}
  {
    IncreasingDistinct(s);
    assert s == s[..position] + [s[position]] + s[position + 1..];
  }

  lemma BelowMiddle(s: seq<string>, middle: nat, value: string)
    requires Increasing(s) && middle < |s| && StrCmp(s[middle], value) < 0
    ensures forall i :: 0 <= i <= middle ==> s[i] != value
  {
    forall i | 0 <= i <= middle
      ensures s[i] != value
    {
      StrCmpFlip(s[middle], value);
    }
  }

  lemma AboveMiddle(s: seq<string>, middle: nat, value: string)
    requires Increasing(s) && middle < |s| && StrCmp(s[middle], value) > 0
    ensures forall i :: middle <= i < |s| ==> s[i] != value
  {
    forall i | middle <= i < |s|
      ensures s[i] != value
    {
      StrCmpZero(s[middle], s[middle]);
    }
  }
}
