// Unsigned LEB128 (section 7.6 of DWARF Version 5), bounded to 64 bits as the dump
// reader bounds it (internal/heapdump/reader.go), on a byte sequence and a position.
module Varint {
  import opened Words
  import opened Wrappers

  // EOF: no byte at all; Truncated: the input ends inside a value.
  datatype ReadError = EOF | Truncated | Overflow | BadBool | TooLong | HeaderTooLong

  // A value and the position after it.
  datatype Got<+T> = Got(value: T, next: nat)

  const MAX_BYTES: nat := 10

  // What the bytes from the i-th on may still contribute: 2^(64 - 7i).
  function Room(i: nat): (r: nat)
    requires i < MAX_BYTES
    ensures r >= 2
    decreases MAX_BYTES - i
  {
    if i == 9 then 2 else 128 * Room(i + 1)
  }

  lemma RoomIsWord()
    ensures Room(0) == TWO64
  {
    assert Room(6) == 0x400000 by {
      assert Room(7) == 0x8000;
    }
    assert Room(3) == 0x800_0000_0000 by {
      assert Room(4) == 0x10_0000_0000;
    }
  }

  // The value at pos, i bytes of which were already read.
  function DecUvarint(data: seq<byte>, pos: nat, i: nat): (r: Result<Got<nat>, ReadError>)
    ensures r.Ok? ==> pos < r.value.next <= |data|
    decreases |data| - pos
  {
    if i >= MAX_BYTES then Err(Overflow)
    else if pos >= |data| then Err(if i == 0 then EOF else Truncated)
    else if data[pos] < 128 then
      if i == 9 && data[pos] > 1 then Err(Overflow)
      else Ok(Got(data[pos] as nat, pos + 1))
    else
      var more :- DecUvarint(data, pos + 1, i + 1);
      Ok(Got(data[pos] as nat - 128 + 128 * more.value, more.next))
  }

  lemma {:induction false} DecUvarintFits(data: seq<byte>, pos: nat, i: nat)
    requires DecUvarint(data, pos, i).Ok?
    ensures i < MAX_BYTES && DecUvarint(data, pos, i).value.value < Room(i)
    decreases |data| - pos
  {
    if data[pos] >= 128 {
      DecUvarintFits(data, pos + 1, i + 1);
    }
  }

  function Uvarint(data: seq<byte>, pos: nat): (r: Result<Got<u64>, ReadError>)
    ensures r.Ok? ==> pos < r.value.next <= |data|
  {
    var got :- DecUvarint(data, pos, 0);
    DecUvarintFits(data, pos, 0);
    RoomIsWord();
    Ok(Got(got.value as u64, got.next))
  }

  // x in front of k. Encoders take what follows as an argument, so that nothing
  // is concatenated twice.
  function PutUvarint(x: nat, k: seq<byte>): (s: seq<byte>)
    ensures |s| > |k|
  {
    if x < 128 then [x] + k else [x % 128 + 128] + PutUvarint(x / 128, k)
  }

  // s is all that data holds from pos on.
  ghost predicate At(data: seq<byte>, pos: nat, s: seq<byte>)
    decreases |s|
  {
    && pos + |s| == |data|
    && (|s| > 0 ==> data[pos] == s[0] && At(data, pos + 1, s[1..]))
  }

  lemma AtNext(data: seq<byte>, pos: nat, b: byte, s: seq<byte>)
    requires At(data, pos, [b] + s)
    ensures pos < |data| && data[pos] == b && At(data, pos + 1, s)
  {
    assert ([b] + s)[1..] == s;
  }

  lemma {:induction false} AtMeans(data: seq<byte>, pos: nat, s: seq<byte>)
    requires pos <= |data|
    ensures At(data, pos, s) <==> data[pos..] == s
    decreases |s|
  {
    if |s| == 0 {
    } else if pos < |data| {
      AtMeans(data, pos + 1, s[1..]);
      assert s == [s[0]] + s[1..];
      assert data[pos..] == [data[pos]] + data[pos + 1..];
    }
  }

  // A block in front of k.
  lemma AtBlock(data: seq<byte>, pos: nat, s: seq<byte>, k: seq<byte>)
    requires At(data, pos, s + k)
    ensures pos + |s| + |k| == |data| && data[pos..pos + |s|] == s && At(data, pos + |s|, k)
  {
    AtMeans(data, pos, s + k);
    AtMeans(data, pos + |s|, k);
    assert data[pos..pos + |s|] == data[pos..][..|s|];
    assert data[pos + |s|..] == data[pos..][|s|..];
  }

  lemma LowBits(x: nat, room: nat)
    requires x < 128 * room
    ensures x % 128 + 128 * (x / 128) == x && x / 128 < room
  {}

  lemma {:induction false} DecodesEncoded(data: seq<byte>, pos: nat, x: nat, i: nat, k: seq<byte>)
    requires i < MAX_BYTES && x < Room(i) && At(data, pos, PutUvarint(x, k))
    ensures DecUvarint(data, pos, i) == Ok(Got(x, |data| - |k|)) && At(data, |data| - |k|, k)
    decreases MAX_BYTES - i
  {
    if x < 128 {
      AtNext(data, pos, x, k);
    } else {
      LowBits(x, Room(i + 1));
      AtNext(data, pos, x % 128 + 128, PutUvarint(x / 128, k));
      DecodesEncoded(data, pos + 1, x / 128, i + 1, k);
    }
  }

  // Decoding inverts encoding, whatever follows.
  lemma UvarintRoundTrip(data: seq<byte>, pos: nat, x: u64, k: seq<byte>)
    requires At(data, pos, PutUvarint(x, k))
    ensures Uvarint(data, pos) == Ok(Got(x, |data| - |k|)) && At(data, |data| - |k|, k)
  {
    RoomIsWord();
    DecodesEncoded(data, pos, x, 0, k);
  }

  // What was decoded does not depend on what follows it.
  lemma {:induction false} DecUvarintExtends(data: seq<byte>, pos: nat, i: nat, k: seq<byte>)
    requires DecUvarint(data, pos, i).Ok?
    ensures DecUvarint(data + k, pos, i) == DecUvarint(data, pos, i)
    decreases |data| - pos
  {
    if data[pos] >= 128 {
      DecUvarintExtends(data, pos + 1, i + 1, k);
    }
  }

  lemma UvarintExtends(data: seq<byte>, pos: nat, k: seq<byte>)
    requires Uvarint(data, pos).Ok?
    ensures Uvarint(data + k, pos) == Uvarint(data, pos)
  {
    DecUvarintExtends(data, pos, 0, k);
  }
}
