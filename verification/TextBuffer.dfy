/** The code generator's growable, always terminated buffer. */
module TextBuffer {
  import opened Bytes

  class Buffer {
    var data: array<byte>
    var len: nat

    /** There is always room for the terminator, and it is there. */
    ghost predicate Valid()
      reads this, data
    {
      len < data.Length && data[len] == 0
    }

    function Contents(): seq<byte>
      requires Valid()
      reads this, data
    {
      data[..len]
    }

    constructor (cap: nat)
      requires cap > 0
      ensures Valid() && fresh(data) && Contents() == [] && data.Length == cap
    {
      data := new byte[cap](_ => 0);
      len := 0;
    }

    /** Room for extra bytes and the terminator; a capacity that grows stays below twice what is needed. */
    method Reserve(extra: nat)
      requires Valid()
      modifies this`data
      ensures Valid() && Contents() == old(Contents()) && len + extra < data.Length
      ensures data == old(data) || (fresh(data) && data.Length < 2 * (len + extra + 1))
      ensures data == old(data) <==> len + extra < old(data.Length)
    {
      var required := len + extra + 1;
      if required <= data.Length {
        return;
      }
      var cap := data.Length;
      while cap < required
        invariant 0 < cap < 2 * required
        decreases required - cap
      {
        cap := cap * 2;
      }
      var next := new byte[cap](_ => 0);
      var i := 0;
      while i <= len
        invariant data == old(data) && len == old(len) && 0 <= i <= len + 1
        invariant next[..i] == data[..i]
      {
        next[i] := data[i];
        i := i + 1;
      }
      assert next[..len] == next[..len + 1][..len];
      data := next;
    }

    method Append(text: seq<byte>)
      requires Valid()
      modifies this, data
      ensures Valid() && Contents() == old(Contents()) + text
      ensures data == old(data) || fresh(data)
    {
      Reserve(|text|);
      ghost var before := Contents();
      var i := 0;
      while i < |text|
        invariant 0 <= i <= |text|
        invariant data == old(data) || fresh(data)
        invariant len + |text| < data.Length && len == |before|
        invariant data[..len + i] == before + text[..i]
      {
        data[len + i] := text[i];
        i := i + 1;
      }
      assert text[..|text|] == text;
      len := len + |text|;
      data[len] := 0;
      assert data[..len] == before + text;
    }
  }
}
