/** The growable text buffer of src/common/rpc.c. */
module JsonBuilder {
  import opened Bytes
  import opened Utf8
  import opened JsonString

  const SIZE_MAX: nat := 0xFFFF_FFFF_FFFF_FFFF

  /** Doubling stops here. */
  const HALF: nat := SIZE_MAX / 2

  /** The writer's loop body: what to write for the byte at `i`, and how far to move. */
  method NextChunk(value: bytes, i: nat) returns (chunk: bytes, step: nat)
    requires i < |value|
    ensures step == UnitLength(value[i..])
    ensures i + step <= |value| && chunk == EncodeUnit(value[i..i + step])
  {
    var b := value[i];
    step := 1;
    if b in {0x22, 0x5C, 0x08, 0x0C, 0x0A, 0x0D, 0x09} || b < 0x20 {
      chunk := EncodeByte(b);
    } else if b >= 0x80 {
      if 0xC2 <= b <= 0xDF && i + 1 < |value| && Continuation(value[i + 1]) {
        step := 2;
      } else if 0xE0 <= b <= 0xEF && i + 2 < |value|
                && SecondByte(b, value[i + 1]) && Continuation(value[i + 2]) {
        step := 3;
      } else if 0xF0 <= b <= 0xF4 && i + 3 < |value|
                && SecondByte(b, value[i + 1]) && Continuation(value[i + 2]) && Continuation(value[i + 3]) {
        step := 4;
      }
      chunk := if step == 1 then UnicodeEscape(b) else value[i..i + step];
    } else {
      chunk := [b];
    }
    assert value[i..][..step] == value[i..i + step];
  }

  class Builder {
    ghost var contents: bytes
    ghost var refusals: nat
    var data: array?<byte>
    var length: nat
    var capacity: nat

    /** The buffer always has room for, and holds, a terminating zero. */
    ghost predicate Valid()
      reads this, data
    {
      && capacity <= SIZE_MAX && length == |contents|
      && (data == null ==> length == 0 && capacity == 0)
      && (data != null ==> data.Length == capacity && length < capacity
                           && data[..length] == contents && data[length] == 0)
    }

    constructor ()
      ensures Valid() && contents == []
    {
      data, contents, refusals := null, [], 0;
      length, capacity := 0, 0;
    }

    /** cubicle_json_builder_reserve; the allocator may refuse. */
    method Reserve(extra: nat) returns (ok: bool)
      requires Valid()
      modifies this
      ensures Valid() && contents == old(contents)
      ensures ok ==> data != null && length + extra < capacity
      ensures data == old(data) || fresh(data)
      ensures !ok ==> data == old(data)
      ensures extra > SIZE_MAX - old(length) - 1 ==> !ok
      ensures old(length) + extra < old(capacity) ==> ok && data == old(data)
      ensures ok ==> refusals == old(refusals)
      ensures !ok ==> refusals == old(refusals) + 1 || old(length) + extra >= HALF
    {
      if extra > SIZE_MAX - length - 1 {
        return false;
      }
      if length + extra + 1 <= capacity {
        return true;
      }
      var wanted := if capacity == 0 then 256 else capacity;
      while length + extra + 1 > wanted
        invariant 0 < wanted <= SIZE_MAX && capacity <= wanted
        decreases SIZE_MAX - wanted
      {
        if wanted > SIZE_MAX / 2 {
          return false;
        }
        wanted := wanted * 2;
      }
      var granted: bool := *;
      if !granted {
        refusals := refusals + 1;
        return false;
      }
      var bigger := new byte[wanted](_ => 0);
      if data != null {
        forall i | 0 <= i <= length { bigger[i] := data[i]; }
      }
      data, capacity := bigger, wanted;
      if length == 0 {
        data[0] := 0;
      }
      return true;
    }

    /** Copy and terminate, once the room is there. */
    method Put(text: bytes)
      requires Valid() && data != null && length + |text| < capacity
      modifies this`length, this`contents, data
      ensures Valid() && contents == old(contents) + text
    {
      forall i | 0 <= i < |text| { data[length + i] := text[i]; }
      length := length + |text|;
      data[length] := 0;
      contents := contents + text;
    }

    /** cubicle_json_builder_append */
    method Append(text: bytes) returns (ok: bool)
      requires Valid()
      modifies this, data
      ensures Valid() && (data == old(data) || fresh(data))
      ensures contents == old(contents) + if ok then text else []
      ensures ok ==> refusals == old(refusals)
      ensures !ok ==> refusals > old(refusals) || |old(contents)| + |text| >= HALF
    {
      ok := Reserve(|text|);
      if ok {
        Put(text);
      }
    }

    /**
      The loop of cubicle_json_builder_append_string_n: one pass over the bytes,
      copying sequences and plain characters, escaping everything else. When the
      allocator refuses half way, what was written stays.
     */
    method AppendEscaped(value: bytes) returns (ok: bool)
      requires Valid()
      modifies this, data
      ensures Valid() && (data == old(data) || fresh(data))
      ensures ok ==> contents == old(contents) + Escaped(value) && refusals == old(refusals)
      ensures !ok ==> refusals > old(refusals) || |old(contents)| + |Escaped(value)| >= HALF
      ensures old(contents) <= contents
    {
      hide Units, EncodeUnits, EncodeUnit, UnitLength;
      ghost var written: bytes := [];
      var i := 0;
      assert value[0..] == value;
      while i < |value|
        invariant Valid() && (data == old(data) || fresh(data))
        invariant contents == old(contents) + written && refusals == old(refusals)
        invariant WrittenUpTo(value, i, written)
      {
        var chunk, step := NextChunk(value, i);
        WriteUnit(value, i, written, step, chunk);
        ok := Append(chunk);
        if !ok { return; }
        written := written + chunk;
        i := i + step;
      }
      WrittenAll(value, written);
      ok := true;
    }

    /** cubicle_json_builder_append_string_n */
    method AppendStringN(value: bytes) returns (ok: bool)
      requires Valid()
      modifies this, data
      ensures Valid() && (data == old(data) || fresh(data))
      ensures ok ==> contents == old(contents) + Quoted(value) && refusals == old(refusals)
      ensures !ok ==> refusals > old(refusals) || |old(contents)| + |Quoted(value)| >= HALF
      ensures old(contents) <= contents
    {
      hide Escaped;
      ok := Append([0x22]);
      if !ok { return; }
      ok := AppendEscaped(value);
      if !ok { return; }
      ok := Append([0x22]);
    }
  }
}
