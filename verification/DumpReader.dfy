// The stream reader of the dump parser (internal/heapdump/reader.go): every
// method is proved against the decoding functions of Varint, Wire and Records.
module DumpReader {
  import opened Words
  import opened Wrappers
  import opened Heap
  import opened Varint
  import opened Wire
  import opened Records

  const CHUNK: nat := 65536

  // The method read what the specification decodes and stands where the
  // specification stops. After an error the position is open.
  ghost predicate Agrees<T(!new)>(spec: Result<Got<T>, ReadError>, r: Result<T, ReadError>, offset: nat)
  {
    match spec
    case Ok(got) => r == Ok(got.value) && offset == got.next
    case Err(e) => r == Err(e)
  }

  class Reader {
    const data: seq<byte>
    const format: Format
    var offset: nat

    constructor (data: seq<byte>, format: Format)
      ensures this.data == data && this.format == format && offset == 0
    {
      this.data, this.format, this.offset := data, format, 0;
    }

    method ReadByte() returns (r: Option<byte>)
      modifies this`offset
      ensures old(offset) >= |data| ==> r == None && offset == old(offset)
      ensures old(offset) < |data| ==> r == Some(data[old(offset)]) && offset == old(offset) + 1
    {
      if offset >= |data| {
        return None;
      }
      r := Some(data[offset]);
      offset := offset + 1;
    }

    // The digits, least significant first: x is their value so far and w the
    // weight of the next one.
    method ReadDigits() returns (r: Result<nat, ReadError>)
      modifies this`offset
      ensures Agrees(DecUvarint(data, old(offset), 0), r, offset)
    {
      var x: nat, w: nat := 0, 1;
      ghost var spec := DecUvarint(data, offset, 0);
      ScaleNone(spec);
      for i := 0 to 10
        invariant spec == Scaled(x, w, DecUvarint(data, offset, i))
      {
        ghost var pos := offset;
        var b := ReadByte();
        if b.None? {
          return Err(if i == 0 then EOF else Truncated);
        }
        if b.value < 128 {
          if i == 9 && b.value > 1 {
            return Err(Overflow);
          }
          return Ok(x + w * b.value);
        }
        VarintStep(data, pos, i, x, w);
        x, w := x + w * (b.value as nat - 128), w * 128;
      }
      return Err(Overflow);
    }

    method ReadUvarint() returns (r: Result<u64, ReadError>)
      modifies this`offset
      ensures Agrees(Uvarint(data, old(offset)), r, offset)
    {
      ghost var pos := offset;
      var x :- ReadDigits();
      DecUvarintFits(data, pos, 0);
      RoomIsWord();
      return Ok(x);
    }

    method ReadBool() returns (r: Result<bool, ReadError>)
      modifies this`offset
      ensures Agrees(DecFlag(data, old(offset)), r, offset)
    {
      var v :- ReadUvarint();
      match v
      case 0 => return Ok(false);
      case 1 => return Ok(true);
      case _ => return Err(BadBool);
    }

    // The buffer grows only as bytes arrive, chunk by chunk.
    method ReadPayload(n: nat) returns (r: Result<seq<byte>, ReadError>)
      requires offset <= |data|
      modifies this`offset
      ensures Agrees(Payload(n, data, old(offset)), r, offset)
    {
      var buf: seq<byte>, todo: nat := [], n;
      while todo > 0
        invariant offset <= |data|
        invariant offset == old(offset) + |buf| && |buf| + todo == n
        invariant buf == data[old(offset)..offset]
      {
        var part := if todo < CHUNK then todo else CHUNK;
        if |data| - offset < part {
          offset := |data|;
          return Err(Truncated);
        }
        buf := buf + data[offset..offset + part];
        offset := offset + part;
        todo := todo - part;
      }
      return Ok(buf);
    }

    // A length-prefixed block and the file offset of its first byte.
    method ReadBlock(limit: nat) returns (r: Result<seq<byte>, ReadError>, at: nat)
      modifies this`offset
      ensures Agrees(DecBlock(limit, data, old(offset)), r, offset)
      ensures r.Ok? ==> at == PayloadAt(data, old(offset))
    {
      var n := ReadUvarint();
      at := offset;
      if n.Err? {
        return Err(n.error), at;
      }
      if limit != 0 && n.value > limit {
        return Err(TooLong), at;
      }
      if n.value > MAX_I64 {
        return Err(TooLong), at;
      }
      r := ReadPayload(n.value);
    }

    method ReadFields() returns (r: Result<seq<Field>, ReadError>)
      modifies this`offset
      ensures Agrees(DecFields(data, old(offset)), r, offset)
    {
      var fields: seq<Field> := [];
      ghost var spec := DecFields(data, offset);
      PrependNone(spec);
      while true
        invariant spec == Prepended(fields, DecFields(data, offset))
        decreases |data| - offset
      {
        var kind :- ReadUvarint();
        if kind == KIND_EOL {
          assert fields + [] == fields;
          return Ok(fields);
        }
        var off :- ReadUvarint();
        PrependOnce(fields, Field(kind, off), DecFields(data, offset));
        fields := fields + [Field(kind, off)];
      }
    }

    method ReadWords(n: nat) returns (r: Result<seq<u64>, ReadError>)
      modifies this`offset
      ensures Agrees(DecWords(n, data, old(offset)), r, offset)
    {
      var words: seq<u64>, todo: nat := [], n;
      ghost var spec := DecWords(n, data, offset);
      PrependNone(spec);
      while todo > 0
        invariant spec == Prepended(words, DecWords(todo, data, offset))
      {
        var w :- ReadUvarint();
        PrependOnce(words, w, DecWords(todo - 1, data, offset));
        words, todo := words + [w], todo - 1;
      }
      assert words + [] == words;
      return Ok(words);
    }

    method ReadPart(p: Part) returns (r: Result<Value, ReadError>)
      modifies this`offset
      ensures Agrees(DecPart(p, format.lim, data, old(offset)), r, offset)
    {
      match p
      case WordsOf(n) =>
        var ws :- ReadWords(n);
        return Ok(Words(ws));
      case FlagPart =>
        var b :- ReadBool();
        return Ok(Flag(b));
      case BlockPart(t) =>
        var b, at := ReadBlock(LimitOf(format.lim, t));
        return if b.Err? then Err(b.error) else Ok(Block(b.value, at));
      case FieldsPart =>
        var fs :- ReadFields();
        return Ok(Fields(fs));
    }

    method ReadParts(ps: seq<Part>) returns (r: Result<seq<Value>, ReadError>)
      modifies this`offset
      ensures Agrees(DecParts(ps, format.lim, data, old(offset)), r, offset)
    {
      var values: seq<Value>, todo := [], ps;
      ghost var spec := DecParts(ps, format.lim, data, offset);
      PrependNone(spec);
      while |todo| > 0
        invariant spec == Prepended(values, DecParts(todo, format.lim, data, offset))
      {
        var v :- ReadPart(todo[0]);
        PrependOnce(values, v, DecParts(todo[1..], format.lim, data, offset));
        values, todo := values + [v], todo[1..];
      }
      assert values + [] == values;
      return Ok(values);
    }

    method ReadRecord() returns (r: Result<Record, ReadError>)
      modifies this`offset
      ensures Agrees(DecRecord(format, data, old(offset)), r, offset)
    {
      var tag :- ReadUvarint();
      match format.layout(tag)
      case None => return Ok(Record(tag, [], []));
      case Some(ps) =>
        var values :- ReadParts(ps);
        var more :- ReadParts(format.more(tag, Announced(values)));
        return Ok(Record(tag, values, more));
    }

    // The header line, bounded.
    method ReadLine() returns (r: Result<seq<byte>, ReadError>)
      modifies this`offset
      ensures Agrees(DecLine(data, old(offset), 0), r, offset)
    {
      var line: seq<byte> := [];
      ghost var spec := DecLine(data, offset, 0);
      PrependNone(spec);
      while |line| < MAX_LINE
        invariant |line| <= MAX_LINE
        invariant spec == Prepended(line, DecLine(data, offset, |line|))
        decreases MAX_LINE - |line|
      {
        var b := ReadByte();
        if b.None? {
          return Err(if |line| == 0 then EOF else Truncated);
        }
        if b.value == NEWLINE {
          assert line + [] == line;
          return Ok(line);
        }
        PrependOnce(line, b.value, DecLine(data, offset, |line| + 1));
        line := line + [b.value];
      }
      return Err(HeaderTooLong);
    }
  }

  // What was accumulated so far, in front of what the rest decodes to.
  ghost function Prepended<T>(done: seq<T>, r: Result<Got<seq<T>>, ReadError>): Result<Got<seq<T>>, ReadError>
  {
    match r
    case Ok(got) => Ok(Got(done + got.value, got.next))
    case Err(e) => Err(e)
  }

  lemma PrependNone<T>(r: Result<Got<seq<T>>, ReadError>)
    ensures Prepended([], r) == r
  {
    if r.Ok? {
      assert [] + r.value.value == r.value.value;
    }
  }

  lemma PrependOnce<T>(done: seq<T>, x: T, r: Result<Got<seq<T>>, ReadError>)
    ensures Prepended(done, Prepended([x], r)) == Prepended(done + [x], r)
  {
    if r.Ok? {
      assert done + ([x] + r.value.value) == done + [x] + r.value.value;
    }
  }

  ghost function Scaled(x: nat, w: nat, r: Result<Got<nat>, ReadError>): Result<Got<nat>, ReadError>
  {
    match r
    case Ok(got) => Ok(Got(x + w * got.value, got.next))
    case Err(e) => Err(e)
  }

  lemma ScaleNone(r: Result<Got<nat>, ReadError>)
    ensures Scaled(0, 1, r) == r
  {}

  // One continuation byte read.
  lemma VarintStep(data: seq<byte>, pos: nat, i: nat, x: nat, w: nat)
    requires pos < |data| && data[pos] >= 128 && i < MAX_BYTES
    ensures Scaled(x, w, DecUvarint(data, pos, i))
      == Scaled(x + w * (data[pos] as nat - 128), w * 128, DecUvarint(data, pos + 1, i + 1))
  {
    var r := DecUvarint(data, pos + 1, i + 1);
    if r.Ok? {
      Distribute(w, data[pos] as nat - 128, r.value.value);
    }
  }

  lemma Distribute(w: nat, b: nat, v: nat)
    ensures w * (b + 128 * v) == w * b + w * 128 * v
  {}
}
