/** The growable, NUL-terminated text buffer that two of the tools carry a copy of. */
module TextBuffer {

  class Buffer {
    var data: array<char>
    var length: nat
    ghost var Repr: set<object>

    /** Either nothing was allocated yet, or the text and its terminator fit. */
    ghost predicate Valid()
      reads this, Repr
      ensures Valid() ==> this in Repr && length <= data.Length
    {
      && Repr == {this, data}
      && if data.Length == 0 then length == 0
      else length < data.Length && data[length] == '\0'
    }

    ghost function Contents(): (s: string)
      reads this, data
      requires length <= data.Length
      ensures |s| == length
    {
      data[..length]
    }

    constructor ()
      ensures Valid() && fresh(Repr) && Contents() == []
    {
      data := new char[0];
      length := 0;
      Repr := {this, data};
    }

    /**
     Makes room for `extra` more bytes and a terminator. The capacity starts at 4096
     and doubles, so it never exceeds twice what is needed, and it never shrinks.
     */
    method Reserve(extra: nat)
      requires Valid()
      modifies this`data, this`Repr
      ensures Repr == {this, data} && length + extra < data.Length
      ensures Contents() == old(Contents())
      ensures data == old(data) || fresh(data)
      ensures data.Length >= old(data.Length)
      ensures data.Length > old(data.Length) ==> data.Length == 4096 || data.Length < 2 * (length + extra + 1)
    {
      var needed := length + extra + 1;
      var capacity := if data.Length == 0 then 4096 else data.Length;
      if needed <= data.Length {
        return;
      }
      while capacity < needed
        invariant capacity >= data.Length && capacity > 0
        invariant capacity == 4096 || capacity < 2 * needed
        decreases needed - capacity
      {
        capacity := capacity * 2;
      }
      var grown := new char[capacity];
      forall i | 0 <= i < length {
        grown[i] := data[i];
      }
      data := grown;
      Repr := {this, data};
    }

    method Append(value: string)
      requires Valid()
      modifies Repr
      ensures Valid() && fresh(Repr - old(Repr))
      ensures Contents() == old(Contents()) + value
    {
      Reserve(|value|);
      forall i | 0 <= i < |value| {
        data[length + i] := value[i];
      }
      length := length + |value|;
      data[length] := '\0';
    }
  }
}
