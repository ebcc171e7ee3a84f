// The field layouts of dump records and their encoding (internal/heapdump:
// reader.go, records.go, parser.go).
module Wire {
  import opened Words
  import opened Wrappers
  import opened Heap
  import opened Varint

  // WordsOf(n) is n uvarints in a row; the others are one field each. A block is
  // a length-prefixed string or memory range.
  datatype Part = WordsOf(n: nat) | FlagPart | BlockPart(isText: bool) | FieldsPart

  // at is the file offset of the first byte of a block.
  datatype Value =
    | Words(words: seq<u64>)
    | Flag(flag: bool)
    | Block(bytes: seq<byte>, at: int)
    | Fields(fields: seq<Field>)

  // Zero disables a limit.
  datatype Limits = Limits(maxString: nat, maxMemory: nat)

  function LimitOf(lim: Limits, isText: bool): nat
  {
    if isText then lim.maxString else lim.maxMemory
  }

  // ---- Decoding ----

  function DecWords(n: nat, data: seq<byte>, pos: nat): (r: Result<Got<seq<u64>>, ReadError>)
    ensures r.Ok? ==> pos <= r.value.next && |r.value.value| == n
    ensures r.Ok? && pos <= |data| ==> r.value.next <= |data|
  {
    if n == 0 then Ok(Got([], pos))
    else
      var w :- Uvarint(data, pos);
      var more :- DecWords(n - 1, data, w.next);
      Ok(Got([w.value] + more.value, more.next))
  }

  function DecFlag(data: seq<byte>, pos: nat): (r: Result<Got<bool>, ReadError>)
    ensures r.Ok? ==> pos <= r.value.next
    ensures r.Ok? && pos <= |data| ==> r.value.next <= |data|
  {
    var w :- Uvarint(data, pos);
    if w.value > 1 then Err(BadBool) else Ok(Got(w.value == 1, w.next))
  }

  predicate LengthOK(n: u64, limit: nat)
  {
    (limit != 0 ==> n <= limit) && n <= MAX_I64
  }

  function Payload(n: nat, data: seq<byte>, pos: nat): (r: Result<Got<seq<byte>>, ReadError>)
    ensures r.Ok? ==> r.value.next == pos + n <= |data| && r.value.value == data[pos..pos + n]
  {
    if |data| < pos + n then Err(Truncated) else Ok(Got(data[pos..pos + n], pos + n))
  }

  // A length-prefixed run of bytes.
  function DecBlock(limit: nat, data: seq<byte>, pos: nat): (r: Result<Got<seq<byte>>, ReadError>)
    ensures r.Ok? ==> pos <= r.value.next
    ensures r.Ok? && pos <= |data| ==> r.value.next <= |data|
  {
    var n :- Uvarint(data, pos);
    if !LengthOK(n.value, limit) then Err(TooLong) else Payload(n.value, data, n.next)
  }

  function DecFields(data: seq<byte>, pos: nat): (r: Result<Got<seq<Field>>, ReadError>)
    ensures r.Ok? ==> pos <= r.value.next
    ensures r.Ok? && pos <= |data| ==> r.value.next <= |data|
    decreases |data| - pos
  {
    var kind :- Uvarint(data, pos);
    if kind.value == KIND_EOL then Ok(Got([], kind.next))
    else
      var offset :- Uvarint(data, kind.next);
      var more :- DecFields(data, offset.next);
      Ok(Got([Field(kind.value, offset.value)] + more.value, more.next))
  }

  // Where the payload of a length-prefixed block starts.
  function PayloadAt(data: seq<byte>, pos: nat): nat
  {
    match Uvarint(data, pos)
    case Ok(n) => n.next
    case Err(_) => pos
  }

  function DecPart(p: Part, lim: Limits, data: seq<byte>, pos: nat): (r: Result<Got<Value>, ReadError>)
    ensures r.Ok? ==> pos <= r.value.next
    ensures r.Ok? && pos <= |data| ==> r.value.next <= |data|
  {
    match p
    case WordsOf(n) => var g :- DecWords(n, data, pos); Ok(Got(Words(g.value), g.next))
    case FlagPart => var g :- DecFlag(data, pos); Ok(Got(Flag(g.value), g.next))
    case BlockPart(t) => var g :- DecBlock(LimitOf(lim, t), data, pos); Ok(Got(Block(g.value, PayloadAt(data, pos)), g.next))
    case FieldsPart => var g :- DecFields(data, pos); Ok(Got(Fields(g.value), g.next))
  }

  function DecParts(ps: seq<Part>, lim: Limits, data: seq<byte>, pos: nat): (r: Result<Got<seq<Value>>, ReadError>)
    ensures r.Ok? ==> pos <= r.value.next && |r.value.value| == |ps|
    ensures r.Ok? && pos <= |data| ==> r.value.next <= |data|
    decreases |ps|
  {
    if |ps| == 0 then Ok(Got([], pos))
    else
      var v :- DecPart(ps[0], lim, data, pos);
      var more :- DecParts(ps[1..], lim, data, v.next);
      Ok(Got([v.value] + more.value, more.next))
  }

  // ---- Encoding ----

  function PutWords(ws: seq<u64>, k: seq<byte>): (s: seq<byte>)
    ensures |s| >= |k|
  {
    if |ws| == 0 then k else PutUvarint(ws[0], PutWords(ws[1..], k))
  }

  function PutFlag(b: bool, k: seq<byte>): (s: seq<byte>)
    ensures |s| >= |k|
  {
    PutUvarint(if b then 1 else 0, k)
  }

  function PutBlock(bytes: seq<byte>, k: seq<byte>): (s: seq<byte>)
    ensures |s| >= |k|
  {
    PutUvarint(|bytes|, bytes + k)
  }

  function PutFields(fs: seq<Field>, k: seq<byte>): (s: seq<byte>)
    ensures |s| >= |k|
  {
    if |fs| == 0 then PutUvarint(KIND_EOL, k)
    else PutUvarint(fs[0].kind, PutUvarint(fs[0].offset, PutFields(fs[1..], k)))
  }

  function PutValue(v: Value, k: seq<byte>): (s: seq<byte>)
    ensures |s| >= |k|
  {
    match v
    case Words(ws) => PutWords(ws, k)
    case Flag(b) => PutFlag(b, k)
    case Block(bytes, _) => PutBlock(bytes, k)
    case Fields(fs) => PutFields(fs, k)
  }

  function PutValues(vs: seq<Value>, k: seq<byte>): (s: seq<byte>)
    ensures |s| >= |k|
  {
    if |vs| == 0 then k else PutValue(vs[0], PutValues(vs[1..], k))
  }

  // ---- Round trip ----

  predicate BlockFits(bytes: seq<byte>, limit: nat) { |bytes| <= MAX_U64 && LengthOK(|bytes|, limit) }

  // v can be written as part p within the limits.
  predicate Fits(v: Value, p: Part, lim: Limits)
  {
    match p
    case WordsOf(n) => v.Words? && |v.words| == n
    case FlagPart => v.Flag?
    case BlockPart(t) => v.Block? && BlockFits(v.bytes, LimitOf(lim, t))
    case FieldsPart => v.Fields? && forall i :: 0 <= i < |v.fields| ==> v.fields[i].kind != KIND_EOL
  }

  predicate AllFit(vs: seq<Value>, ps: seq<Part>, lim: Limits)
  {
    |vs| == |ps| && forall i :: 0 <= i < |vs| ==> Fits(vs[i], ps[i], lim)
  }

  // The value as it is read back when k follows it in a file of the given
  // length: a block knows where it lies.
  function Placed(v: Value, k: seq<byte>, length: nat): Value
  {
    if v.Block? then Block(v.bytes, length - |v.bytes + k|) else v
  }

  function PlacedAll(vs: seq<Value>, k: seq<byte>, length: nat): (r: seq<Value>)
    ensures |r| == |vs|
    decreases |vs|
  {
    if |vs| == 0 then [] else [Placed(vs[0], PutValues(vs[1..], k), length)] + PlacedAll(vs[1..], k, length)
  }

  // The decoder read v and k is what follows.
  ghost predicate Reads<T(!new)>(r: Result<Got<T>, ReadError>, v: T, data: seq<byte>, k: seq<byte>)
  {
    |k| <= |data| && r == Ok(Got(v, |data| - |k|)) && At(data, |data| - |k|, k)
  }

  lemma WordsCons(n: nat, data: seq<byte>, pos: nat, w: u64, next: nat, more: seq<u64>, last: nat)
    requires n > 0 && Uvarint(data, pos) == Ok(Got(w, next)) && DecWords(n - 1, data, next) == Ok(Got(more, last))
    ensures DecWords(n, data, pos) == Ok(Got([w] + more, last))
  {}

  lemma {:induction false} WordsRoundTrip(data: seq<byte>, pos: nat, ws: seq<u64>, k: seq<byte>)
    requires At(data, pos, PutWords(ws, k))
    ensures Reads(DecWords(|ws|, data, pos), ws, data, k)
    decreases |ws|
  {
    if |ws| > 0 {
      var rest := PutWords(ws[1..], k);
      UvarintRoundTrip(data, pos, ws[0], rest);
      WordsRoundTrip(data, |data| - |rest|, ws[1..], k);
      WordsCons(|ws|, data, pos, ws[0], |data| - |rest|, ws[1..], |data| - |k|);
      assert [ws[0]] + ws[1..] == ws;
    }
  }

  lemma BlockRoundTrip(data: seq<byte>, pos: nat, bytes: seq<byte>, limit: nat, k: seq<byte>)
    requires BlockFits(bytes, limit) && At(data, pos, PutBlock(bytes, k))
    ensures Reads(DecBlock(limit, data, pos), bytes, data, k)
    ensures |bytes + k| <= |data| && PayloadAt(data, pos) == |data| - |bytes + k|
  {
    UvarintRoundTrip(data, pos, |bytes|, bytes + k);
    AtBlock(data, |data| - |bytes + k|, bytes, k);
  }

  lemma {:induction false} FieldsRoundTrip(data: seq<byte>, pos: nat, fs: seq<Field>, k: seq<byte>)
    requires (forall i :: 0 <= i < |fs| ==> fs[i].kind != KIND_EOL) && At(data, pos, PutFields(fs, k))
    ensures Reads(DecFields(data, pos), fs, data, k)
    decreases |fs|
  {
    if |fs| == 0 {
      UvarintRoundTrip(data, pos, KIND_EOL, k);
    } else {
      var more := PutFields(fs[1..], k);
      UvarintRoundTrip(data, pos, fs[0].kind, PutUvarint(fs[0].offset, more));
      var next := Uvarint(data, pos).value.next;
      UvarintRoundTrip(data, next, fs[0].offset, more);
      FieldsRoundTrip(data, Uvarint(data, next).value.next, fs[1..], k);
      assert [fs[0]] + fs[1..] == fs;
    }
  }

  lemma WordsValue(data: seq<byte>, pos: nat, v: Value, n: nat, lim: Limits, k: seq<byte>)
    requires v.Words? && Fits(v, WordsOf(n), lim) && At(data, pos, PutValue(v, k))
    ensures Reads(DecPart(WordsOf(n), lim, data, pos), v, data, k)
  {
    WordsRoundTrip(data, pos, v.words, k);
  }

  lemma FlagValue(data: seq<byte>, pos: nat, v: Value, lim: Limits, k: seq<byte>)
    requires v.Flag? && At(data, pos, PutValue(v, k))
    ensures Reads(DecPart(FlagPart, lim, data, pos), v, data, k)
  {
    UvarintRoundTrip(data, pos, if v.flag then 1 else 0, k);
  }

  lemma BlockValue(data: seq<byte>, pos: nat, v: Value, t: bool, lim: Limits, k: seq<byte>)
    requires v.Block? && Fits(v, BlockPart(t), lim) && At(data, pos, PutValue(v, k))
    ensures Reads(DecPart(BlockPart(t), lim, data, pos), Placed(v, k, |data|), data, k)
  {
    BlockRoundTrip(data, pos, v.bytes, LimitOf(lim, t), k);
  }

  lemma FieldsValue(data: seq<byte>, pos: nat, v: Value, lim: Limits, k: seq<byte>)
    requires v.Fields? && Fits(v, FieldsPart, lim) && At(data, pos, PutValue(v, k))
    ensures Reads(DecPart(FieldsPart, lim, data, pos), v, data, k)
  {
    FieldsRoundTrip(data, pos, v.fields, k);
  }

  lemma ValueRoundTrip(data: seq<byte>, pos: nat, v: Value, p: Part, lim: Limits, k: seq<byte>)
    requires Fits(v, p, lim) && At(data, pos, PutValue(v, k))
    ensures Reads(DecPart(p, lim, data, pos), Placed(v, k, |data|), data, k)
  {
    match p
    case WordsOf(n) => WordsValue(data, pos, v, n, lim, k);
    case FlagPart => FlagValue(data, pos, v, lim, k);
    case BlockPart(t) => BlockValue(data, pos, v, t, lim, k);
    case FieldsPart => FieldsValue(data, pos, v, lim, k);
  }

  lemma PartsCons(ps: seq<Part>, lim: Limits, data: seq<byte>, pos: nat, v: Value, next: nat, more: seq<Value>, last: nat)
    requires |ps| > 0 && DecPart(ps[0], lim, data, pos) == Ok(Got(v, next))
    requires DecParts(ps[1..], lim, data, next) == Ok(Got(more, last))
    ensures DecParts(ps, lim, data, pos) == Ok(Got([v] + more, last))
  {}

  lemma {:induction false} ValuesRoundTrip(data: seq<byte>, pos: nat, vs: seq<Value>, ps: seq<Part>, lim: Limits, k: seq<byte>)
    requires AllFit(vs, ps, lim) && At(data, pos, PutValues(vs, k))
    ensures Reads(DecParts(ps, lim, data, pos), PlacedAll(vs, k, |data|), data, k)
    decreases |vs|
  {
    if |vs| > 0 {
      var rest := PutValues(vs[1..], k);
      ValueRoundTrip(data, pos, vs[0], ps[0], lim, rest);
      ValuesRoundTrip(data, |data| - |rest|, vs[1..], ps[1..], lim, k);
      PartsCons(ps, lim, data, pos, Placed(vs[0], rest, |data|), |data| - |rest|, PlacedAll(vs[1..], k, |data|), |data| - |k|);
    }
  }

  // ---- Decoding does not look ahead ----

  lemma {:induction false} WordsExtend(n: nat, data: seq<byte>, pos: nat, k: seq<byte>)
    requires DecWords(n, data, pos).Ok?
    ensures DecWords(n, data + k, pos) == DecWords(n, data, pos)
  {
    if n > 0 {
      UvarintExtends(data, pos, k);
      WordsExtend(n - 1, data, Uvarint(data, pos).value.next, k);
    }
  }

  lemma BlockExtends(limit: nat, data: seq<byte>, pos: nat, k: seq<byte>)
    requires DecBlock(limit, data, pos).Ok?
    ensures DecBlock(limit, data + k, pos) == DecBlock(limit, data, pos)
  {
    UvarintExtends(data, pos, k);
    var n := Uvarint(data, pos).value;
    assert (data + k)[n.next..n.next + n.value] == data[n.next..n.next + n.value];
  }

  lemma {:induction false} FieldsExtend(data: seq<byte>, pos: nat, k: seq<byte>)
    requires DecFields(data, pos).Ok?
    ensures DecFields(data + k, pos) == DecFields(data, pos)
    decreases |data| - pos
  {
    UvarintExtends(data, pos, k);
    var kind := Uvarint(data, pos).value;
    if kind.value != KIND_EOL {
      UvarintExtends(data, kind.next, k);
      FieldsExtend(data, Uvarint(data, kind.next).value.next, k);
    }
  }

  lemma PartExtends(p: Part, lim: Limits, data: seq<byte>, pos: nat, k: seq<byte>)
    requires DecPart(p, lim, data, pos).Ok?
    ensures DecPart(p, lim, data + k, pos) == DecPart(p, lim, data, pos)
  {
    match p
    case WordsOf(n) => WordsExtend(n, data, pos, k);
    case FlagPart => UvarintExtends(data, pos, k);
    case BlockPart(t) =>
      BlockExtends(LimitOf(lim, t), data, pos, k);
      UvarintExtends(data, pos, k);
    case FieldsPart => FieldsExtend(data, pos, k);
  }

  lemma {:induction false} PartsExtend(ps: seq<Part>, lim: Limits, data: seq<byte>, pos: nat, k: seq<byte>)
    requires DecParts(ps, lim, data, pos).Ok?
    ensures DecParts(ps, lim, data + k, pos) == DecParts(ps, lim, data, pos)
    decreases |ps|
  {
    if |ps| > 0 {
      PartExtends(ps[0], lim, data, pos, k);
      PartsExtend(ps[1..], lim, data, DecPart(ps[0], lim, data, pos).value.next, k);
    }
  }
}
