/** The contract ABI codec: types, values, the encoder and the decoder (package accounts/abi). */
module Abi {
  import opened Types
  import opened Words

  const WORD: nat := 32
  /** Sizes the decoder refuses because they do not fit a signed 64-bit integer. */
  const INT64_LIMIT: nat := 0x8000_0000_0000_0000

  datatype Error =
    | CountMismatch
    | BadType
    | Insufficient
    | OverBoundary
    | OffsetTooLarge
    | LengthTooLarge
    | BadBool
    | BadFunction

  datatype Result<T> = Ok(value: T) | Err(error: Error)

  datatype Type =
    | TNum(unsigned: bool, bits: nat)
    | TBool
    | TString
    | TBytes
    | TAddress
    | TFixedBytes(size: nat)
    | TFunction
    | TSlice(elem: Type)
    | TArray(length: nat, elem: Type)

  datatype Argument = Argument(t: Type, indexed: bool)

  /** The Go kind of a number: a machine integer of `width` bytes, or a big integer. */
  datatype Kind = Machine(unsigned: bool, width: nat) | Big

  /** Go values. Whether a list is a Go slice or a Go array is not recorded: the encoder accepts
      either wherever a list is wanted. */
  datatype Value =
    | Num(kind: Kind, n: int)
    | Bool(b: bool)
    | Text(text: seq<byte>)
    | Blob(blob: seq<byte>)
    | Fixed(bytes: seq<byte>)
    | List(items: seq<Value>)

  /** Only 8, 16, 32 and 64 bits have a machine kind; every other size is a big integer. */
  function KindOf(unsigned: bool, bits: nat): (k: Kind) {
    if bits == 8 || bits == 16 || bits == 32 || bits == 64 then Machine(unsigned, bits / 8) else Big
  }

  /** Types the decoder can handle without reading past its word. */
  predicate TypeOk(t: Type) {
    match t
    case TFixedBytes(size) => size <= WORD
    case TSlice(elem) => TypeOk(elem)
    case TArray(_, elem) => TypeOk(elem)
    case _ => true
  }

  predicate IsList(t: Type) {
    t.TSlice? || t.TArray?
  }

  predicate Prefixed(t: Type) {
    t.TString? || t.TBytes? || t.TSlice?
  }

  /** How many elementary values a type holds inline: the product of its nested array lengths. */
  function WordCount(t: Type): nat {
    if t.TArray? then t.length * WordCount(t.elem) else 1
  }

  // ---------------------------------------------------------------- encoding

  /** The run-time type check of the encoder, with the checks of all nested elements. */
  predicate Checks(t: Type, v: Value)
    decreases t, 0
  {
    if IsList(t) then
      && v.List?
      && (t.TArray? ==> |v.items| == t.length)
      && (t.elem.TArray? ==> v.items != [])
      && ChecksAll(t.elem, v.items)
    else ChecksElement(t, v)
  }

  predicate ChecksAll(elem: Type, items: seq<Value>)
    decreases elem, |items| + 1
  {
    items == [] || (Checks(elem, items[0]) && ChecksAll(elem, items[1..]))
  }

  predicate ChecksElement(t: Type, v: Value)
    requires !IsList(t)
  {
    match t
    case TNum(unsigned, bits) => v.Num? && v.kind == KindOf(unsigned, bits)
    case TBool => v.Bool?
    case TString => v.Text?
    case TBytes => v.Blob?
    case TAddress => v.Fixed?
    case TFunction => v.Fixed?
    case TFixedBytes(size) => v.Fixed? && |v.bytes| == size
  }

  /** A length word and the bytes themselves, padded to whole words of the length. */
  function PackBytes(s: seq<byte>, length: nat): seq<byte> {
    Bytes(length, WORD) + RightPad(s, (length + 31) / 32 * 32)
  }

  /** The encoding of one value on its own. It is empty for a value that fails the type check,
      which the encoder never emits. */
  function Encode(t: Type, v: Value): seq<byte>
    decreases t, 0
  {
    if IsList(t) then
      if !v.List? then []
      else if t.TSlice? then PackBytes(EncodeAll(t.elem, v.items), |v.items|)
      else EncodeAll(t.elem, v.items)
    else EncodeElement(t, v)
  }

  function EncodeElement(t: Type, v: Value): seq<byte> {
    match v
    case Num(_, n) => if t.TNum? then Bytes(n, WORD) else []
    case Bool(b) => if t.TBool? then Bytes(if b then 1 else 0, WORD) else []
    case Text(s) => if t.TString? then PackBytes(s, |s|) else []
    case Blob(s) => if t.TBytes? then PackBytes(s, |s|) else []
    case Fixed(s) =>
      if t.TAddress? then LeftPad(s, WORD)
      else if t.TFunction? || t.TFixedBytes? then RightPad(s, WORD)
      else []
    case List(_) => []
  }

  function EncodeAll(elem: Type, items: seq<Value>): seq<byte>
    decreases elem, |items| + 1
  {
    if items == [] then [] else Encode(elem, items[0]) + EncodeAll(elem, items[1..])
  }

  /** Encodes one value, element by element; it fails exactly when the type check does. */
  method PackValue(t: Type, v: Value) returns (r: Result<seq<byte>>)
    ensures r == if Checks(t, v) then Ok(Encode(t, v)) else Err(BadType)
    decreases t
  {
    if !IsList(t) {
      return if ChecksElement(t, v) then Ok(EncodeElement(t, v)) else Err(BadType);
    }
    if !v.List? || (t.TArray? && |v.items| != t.length) || (t.elem.TArray? && v.items == []) {
      return Err(BadType);
    }
    var packed: seq<byte> := [];
    var i := 0;
    while i < |v.items|
      invariant i <= |v.items|
      invariant ChecksAll(t.elem, v.items) <==> ChecksAll(t.elem, v.items[i..])
      invariant packed == EncodeAll(t.elem, v.items[..i])
    {
      assert v.items[i..][0] == v.items[i] && v.items[i..][1..] == v.items[i + 1..];
      var one := PackValue(t.elem, v.items[i]);
      if one.Err? {
        return Err(BadType);
      }
      EncodeSnoc(t.elem, v.items[..i], v.items[i]);
      assert v.items[..i] + [v.items[i]] == v.items[..i + 1];
      packed := packed + one.value;
      i := i + 1;
    }
    assert v.items[..i] == v.items;
    return Ok(if t.TSlice? then PackBytes(packed, |v.items|) else packed);
  }

  lemma Regroup(a: seq<byte>, b: seq<byte>, c: seq<byte>)
    ensures (a + b) + c == a + (b + c)
  {
  }

  lemma {:induction false} EncodeSnoc(elem: Type, items: seq<Value>, v: Value)
    ensures EncodeAll(elem, items + [v]) == EncodeAll(elem, items) + Encode(elem, v)
  {
    if items == [] {
      assert items + [v] == [v];
    } else {
      EncodeSnoc(elem, items[1..], v);
      assert (items + [v])[1..] == items[1..] + [v];
      Regroup(Encode(elem, items[0]), EncodeAll(elem, items[1..]), Encode(elem, v));
    }
  }

  predicate AllCheck(ts: seq<Type>, vs: seq<Value>) {
    |ts| == |vs| && Checked(ts, vs, |ts|)
  }

  /** The first `i` values pass the type check. */
  predicate Checked(ts: seq<Type>, vs: seq<Value>, i: nat)
    requires i <= |ts| == |vs|
  {
    i == 0 || (Checked(ts, vs, i - 1) && Checks(ts[i - 1], vs[i - 1]))
  }

  lemma {:induction false} CheckedAt(ts: seq<Type>, vs: seq<Value>, i: nat, k: nat)
    requires k < i <= |ts| == |vs| && Checked(ts, vs, i)
    ensures Checks(ts[k], vs[k])
  {
    if k < i - 1 {
      CheckedAt(ts, vs, i - 1, k);
    }
  }

  /** One encoded argument, and whether it goes to the tail region. */
  datatype Piece = Piece(dynamic: bool, bytes: seq<byte>)

  function Pieces(ts: seq<Type>, vs: seq<Value>): (ps: seq<Piece>)
    requires |ts| == |vs|
  {
    seq(|ts|, k requires 0 <= k < |ts| => Piece(Prefixed(ts[k]), Encode(ts[k], vs[k])))
  }

  /** The head region: static pieces inline, and for each dynamic piece the offset of its tail,
      the first tail being at `offset`. */
  function Head(ps: seq<Piece>, offset: nat): seq<byte> {
    if ps == [] then []
    else if ps[0].dynamic then Bytes(offset, WORD) + Head(ps[1..], offset + |ps[0].bytes|)
    else ps[0].bytes + Head(ps[1..], offset)
  }

  /** The tail region: the dynamic pieces in order. */
  function Tails(ps: seq<Piece>): seq<byte> {
    if ps == [] then [] else (if ps[0].dynamic then ps[0].bytes else []) + Tails(ps[1..])
  }

  /** The head size the encoder reckons with: it multiplies out one array level only. */
  function Counted(ts: seq<Type>): nat {
    if ts == [] then 0 else (if ts[0].TArray? then WORD * ts[0].length else WORD) + Counted(ts[1..])
  }

  method HeadSize(ts: seq<Type>) returns (inputOffset: nat)
    ensures inputOffset == Counted(ts)
  {
    inputOffset := 0;
    var i := 0;
    while i < |ts|
      invariant i <= |ts|
      invariant inputOffset + Counted(ts[i..]) == Counted(ts)
    {
      assert ts[i..][0] == ts[i] && ts[i..][1..] == ts[i + 1..];
      inputOffset := inputOffset + if ts[i].TArray? then WORD * ts[i].length else WORD;
      i := i + 1;
    }
  }

  lemma {:induction false} TailsSnoc(ps: seq<Piece>, p: Piece)
    ensures Tails(ps + [p]) == Tails(ps) + (if p.dynamic then p.bytes else [])
  {
    if ps == [] {
      assert ps + [p] == [p];
    } else {
      TailsSnoc(ps[1..], p);
      assert (ps + [p])[1..] == ps[1..] + [p];
      Regroup(if ps[0].dynamic then ps[0].bytes else [], Tails(ps[1..]), if p.dynamic then p.bytes else []);
    }
  }

  lemma {:induction false} HeadSnoc(ps: seq<Piece>, p: Piece, offset: nat)
    ensures Head(ps + [p], offset) ==
        Head(ps, offset) + if p.dynamic then Bytes(offset + |Tails(ps)|, WORD) else p.bytes
  {
    if ps == [] {
      assert ps + [p] == [p];
    } else {
      var last := if p.dynamic then Bytes(offset + |Tails(ps)|, WORD) else p.bytes;
      assert (ps + [p])[1..] == ps[1..] + [p];
      if ps[0].dynamic {
        HeadSnoc(ps[1..], p, offset + |ps[0].bytes|);
        Regroup(Bytes(offset, WORD), Head(ps[1..], offset + |ps[0].bytes|), last);
      } else {
        HeadSnoc(ps[1..], p, offset);
        Regroup(ps[0].bytes, Head(ps[1..], offset), last);
      }
    }
  }

  /** The encoder's state before argument `i`: the regions of the pieces so far. */
  ghost predicate Packing(ts: seq<Type>, vs: seq<Value>, i: nat, offset: nat, head: seq<byte>, tails: seq<byte>)
    requires i <= |ts| == |vs|
  {
    var ps := Pieces(ts, vs)[..i];
    head == Head(ps, offset) && tails == Tails(ps)
  }

  lemma PackStep(ts: seq<Type>, vs: seq<Value>, i: nat, offset: nat, head: seq<byte>, tails: seq<byte>)
    requires i < |ts| == |vs| && Packing(ts, vs, i, offset, head, tails)
    ensures var packed := Encode(ts[i], vs[i]);
        if Prefixed(ts[i])
        then Packing(ts, vs, i + 1, offset, head + Bytes(offset + |tails|, WORD), tails + packed)
        else Packing(ts, vs, i + 1, offset, head + packed, tails)
  {
    var ps := Pieces(ts, vs);
    assert ps[..i + 1] == ps[..i] + [ps[i]];
    TailsSnoc(ps[..i], ps[i]);
    HeadSnoc(ps[..i], ps[i], offset);
  }

  lemma PackDone(ts: seq<Type>, vs: seq<Value>, offset: nat, head: seq<byte>, tails: seq<byte>)
    requires |ts| == |vs|
    ensures Packing(ts, vs, 0, offset, [], [])
    ensures Packing(ts, vs, |ts|, offset, head, tails) ==>
        head == Head(Pieces(ts, vs), offset) && tails == Tails(Pieces(ts, vs))
  {
    var ps := Pieces(ts, vs);
    assert ps[..0] == [] && ps[..|ts|] == ps;
  }

  /** Puts an argument's bytes into the head, or behind the tails with their offset in the head. */
  method Place(t: Type, packed: seq<byte>, inputOffset: nat, ret: seq<byte>, variableInput: seq<byte>)
    returns (head: seq<byte>, tails: seq<byte>)
    ensures head == ret + if Prefixed(t) then Bytes(inputOffset + |variableInput|, WORD) else packed
    ensures tails == if Prefixed(t) then variableInput + packed else variableInput
  {
    head, tails := ret, variableInput;
    if Prefixed(t) {
      var offset := inputOffset + |variableInput|;
      head := head + Bytes(offset, WORD);
      tails := tails + packed;
    } else {
      head := head + packed;
    }
  }

  /** Encodes an argument list: it fails exactly on a wrong count or a failing type check, and
      otherwise lays out a head region followed by the tails. */
  method Pack(ts: seq<Type>, values: seq<Value>) returns (r: Result<seq<byte>>)
    ensures |ts| != |values| ==> r == Err(CountMismatch)
    ensures |ts| == |values| && !AllCheck(ts, values) ==> r == Err(BadType)
    ensures AllCheck(ts, values) ==>
        var ps := Pieces(ts, values);
        r == Ok(Head(ps, Counted(ts)) + Tails(ps))
  {
    if |ts| != |values| {
      return Err(CountMismatch);
    }
    var inputOffset := HeadSize(ts);
    var ret: seq<byte>, variableInput: seq<byte> := [], [];
    PackDone(ts, values, inputOffset, [], []);
    var i := 0;
    while i < |values|
      invariant i <= |values|
      invariant Checked(ts, values, i)
      invariant Packing(ts, values, i, inputOffset, ret, variableInput)
    {
      var packed := PackValue(ts[i], values[i]);
      if packed.Err? {
        if AllCheck(ts, values) {
          CheckedAt(ts, values, |ts|, i);
        }
        return Err(BadType);
      }
      PackStep(ts, values, i, inputOffset, ret, variableInput);
      ret, variableInput := Place(ts[i], packed.value, inputOffset, ret, variableInput);
      i := i + 1;
    }
    PackDone(ts, values, inputOffset, ret, variableInput);
    return Ok(ret + variableInput);
  }

  // ---------------------------------------------------------------- decoding

  /** Reads the offset word at `index` and the length word it points at; the answer is the start
      of the contents and the length read. */
  function LengthPrefix(index: nat, data: seq<byte>): (r: Result<(nat, nat)>)
    requires index + WORD <= |data|
    ensures r.Ok? ==> WORD <= r.value.0 && r.value.0 + r.value.1 <= |data|
  {
    var offsetEnd := Unsigned(data[index..index + WORD]) + WORD;
    if offsetEnd > |data| then Err(OverBoundary)
    else if offsetEnd >= INT64_LIMIT then Err(OffsetTooLarge)
    else
      var length := Unsigned(data[offsetEnd - WORD..offsetEnd]);
      if offsetEnd + length >= INT64_LIMIT then Err(LengthTooLarge)
      else if offsetEnd + length > |data| then Err(Insufficient)
      else Ok((offsetEnd, length))
  }

  /** There is an answer exactly when the length word and what it announces lie within the data and
      below the 63-bit limit; it is then what the two words say. */
  lemma LengthPrefixIff(index: nat, data: seq<byte>, place: nat, length: nat)
    requires index + WORD <= |data| && place == Unsigned(data[index..index + WORD])
    requires place + WORD <= |data| ==> length == Unsigned(data[place..place + WORD])
    ensures LengthPrefix(index, data).Ok? <==>
      place + WORD <= |data| && place + WORD + length <= |data| && place + WORD + length < INT64_LIMIT
    ensures LengthPrefix(index, data).Ok? ==> LengthPrefix(index, data).value == (place + WORD, length)
  {
  }

  /** A number is read from the low bytes of its word, except that big integers of either
      signedness are read from the whole word as unsigned. */
  function ReadInteger(kind: Kind, word: seq<byte>): Value
    requires |word| == WORD
    requires kind.Machine? ==> kind.width <= WORD
  {
    match kind
    case Big => Num(kind, Unsigned(word))
    case Machine(unsigned, width) =>
      var low := word[WORD - width..];
      Num(kind, if unsigned then Unsigned(low) else Signed(low))
  }

  function BoolOf(word: seq<byte>): (r: Result<Value>) {
    if word == Bytes(0, WORD) then Ok(Bool(false))
    else if word == Bytes(1, WORD) then Ok(Bool(true))
    else Err(BadBool)
  }

  lemma {:induction false} ZeroWord(n: nat)
    ensures Bytes(0, n) == Zeros(n)
  {
    if n > 0 {
      ZeroWord(n - 1);
      BytesSnoc(0, n);
    }
  }

  lemma BoolWords()
    ensures Bytes(0, WORD) == Zeros(31) + [0]
    ensures Bytes(1, WORD) == Zeros(31) + [1]
  {
    ZeroWord(31);
    BytesSnoc(0, WORD);
    BytesSnoc(1, WORD);
  }

  /** Scans the first 31 bytes for zeros: exactly the two boolean words are accepted. */
  method ReadBool(word: seq<byte>) returns (r: Result<Value>)
    requires |word| == WORD
    ensures r == BoolOf(word)
  {
    BoolWords();
    var i := 0;
    while i < 31
      invariant i <= 31
      invariant forall k :: 0 <= k < i ==> word[k] == 0
    {
      if word[i] != 0 {
        assert word != Bytes(0, WORD) && word != Bytes(1, WORD);
        return Err(BadBool);
      }
      i := i + 1;
    }
    assert word == Zeros(31) + [word[31]];
    if word[31] == 0 {
      return Ok(Bool(false));
    } else if word[31] == 1 {
      return Ok(Bool(true));
    }
    assert (Zeros(31) + [word[31]])[31] == word[31];
    return Err(BadBool);
  }

  /** Decodes the value of type `t` whose head is at `index`. */
  function Decode(index: nat, t: Type, data: seq<byte>): (r: Result<Value>)
    requires TypeOk(t)
    decreases t, 1
  {
    if index + WORD > |data| then Err(Insufficient)
    else if Prefixed(t) then
      match LengthPrefix(index, data)
      case Err(e) => Err(e)
      case Ok((begin, length)) => Contents(begin, length, t, data)
    else
      var word := data[index..index + WORD];
      match t
      case TArray(length, elem) => DecodeList(elem, data, index, length, WORD * WordCount(elem))
      case TNum(unsigned, bits) => Ok(ReadInteger(KindOf(unsigned, bits), word))
      case TBool => BoolOf(word)
      case TAddress => Ok(Fixed(word[12..]))
      case TFixedBytes(size) => Ok(Fixed(word[..size]))
      case TFunction => if Unsigned(word[24..]) != 0 then Err(BadFunction) else Ok(Fixed(word[..24]))
  }

  /** What a length prefix points at: text, bytes, or the elements of a slice. */
  function Contents(begin: nat, length: nat, t: Type, data: seq<byte>): (r: Result<Value>)
    requires TypeOk(t) && Prefixed(t) && begin + length <= |data|
    decreases t, 0
  {
    match t
    case TSlice(elem) => DecodeList(elem, data, begin, length, WORD)
    case TString => Ok(Text(data[begin..begin + length]))
    case TBytes => Ok(Blob(data[begin..begin + length]))
  }

  function DecodeList(elem: Type, data: seq<byte>, start: nat, size: nat, step: nat): (r: Result<Value>)
    requires TypeOk(elem)
    decreases elem, size + 2
  {
    if start + WORD * size > |data| then Err(OverBoundary)
    else match DecodeEach(elem, data, start, size, step)
      case Ok(items) => Ok(List(items))
      case Err(e) => Err(e)
  }

  /** `size` elements read from `start` on, `step` bytes apart. */
  function DecodeEach(elem: Type, data: seq<byte>, start: nat, size: nat, step: nat): (r: Result<seq<Value>>)
    requires TypeOk(elem)
    ensures r.Ok? ==> |r.value| == size
    decreases elem, size + 1
  {
    if size == 0 then Ok([])
    else match Decode(start, elem, data)
      case Err(e) => Err(e)
      case Ok(v) => Prepend([v], DecodeEach(elem, data, start + step, size - 1, step))
  }

  function Prepend(vs: seq<Value>, r: Result<seq<Value>>): Result<seq<Value>> {
    if r.Ok? then Ok(vs + r.value) else r
  }

  lemma PrependChain(vs: seq<Value>, ws: seq<Value>, r: Result<seq<Value>>)
    ensures Prepend([], r) == r
    ensures Prepend(vs + ws, r) == Prepend(vs, Prepend(ws, r))
  {
    if r.Ok? {
      assert [] + r.value == r.value;
      assert (vs + ws) + r.value == vs + (ws + r.value);
    }
  }

  /** The loop over the elements of a slice or an array. */
  method ForEachUnpack(t: Type, data: seq<byte>, start: nat, size: nat) returns (r: Result<Value>)
    requires TypeOk(t) && (t.TSlice? || t.TArray?)
    ensures r == DecodeList(t.elem, data, start, size, if t.TSlice? then WORD else WORD * WordCount(t.elem))
  {
    if start + WORD * size > |data| {
      return Err(OverBoundary);
    }
    var elemSize := WORD;
    if t.TArray? {
      elemSize := FullElemSize(t.elem);
    }
    var items: seq<Value> := [];
    var i, j := start, 0;
    PrependChain([], [], DecodeEach(t.elem, data, start, size, elemSize));
    while j < size
      invariant j <= size
      invariant DecodeEach(t.elem, data, start, size, elemSize)
             == Prepend(items, DecodeEach(t.elem, data, i, size - j, elemSize))
    {
      var one := Decode(i, t.elem, data);
      if one.Err? {
        return Err(one.error);
      }
      PrependChain(items, [one.value], DecodeEach(t.elem, data, i + elemSize, size - j - 1, elemSize));
      items := items + [one.value];
      i, j := i + elemSize, j + 1;
    }
    assert items + [] == items;
    return Ok(List(items));
  }

  method FullElemSize(elem: Type) returns (size: nat)
    ensures size == WORD * WordCount(elem)
  {
    size := WORD;
    var e := elem;
    while e.TArray?
      invariant size * WordCount(e) == WORD * WordCount(elem)
      decreases e
    {
      assert size * (e.length * WordCount(e.elem)) == (size * e.length) * WordCount(e.elem);
      size := size * e.length;
      e := e.elem;
    }
  }

  method ArraySize(t: Type) returns (size: nat)
    requires t.TArray?
    ensures size == WordCount(t)
  {
    size := t.length;
    var e := t.elem;
    while e.TArray?
      invariant size * WordCount(e) == WordCount(t)
      decreases e
    {
      assert size * (e.length * WordCount(e.elem)) == (size * e.length) * WordCount(e.elem);
      size := size * e.length;
      e := e.elem;
    }
  }

  predicate TypesOk(ts: seq<Type>) {
    forall k :: 0 <= k < |ts| ==> TypeOk(ts[k])
  }

  /** Decodes the arguments in order, each starting where the inline words of the ones before it
      end, and stops at the first failure. */
  function DecodeArgs(ts: seq<Type>, pos: nat, data: seq<byte>): (r: Result<seq<Value>>)
    requires TypesOk(ts)
  {
    if ts == [] then Ok([])
    else match Decode(pos, ts[0], data)
      case Err(e) => Err(e)
      case Ok(v) => Prepend([v], DecodeArgs(ts[1..], pos + WORD * WordCount(ts[0]), data))
  }

  /** The types of the arguments that are not indexed. */
  function NonIndexed(args: seq<Argument>): (ts: seq<Type>) {
    if args == [] then []
    else NonIndexed(args[..|args| - 1]) + if args[|args| - 1].indexed then [] else [args[|args| - 1].t]
  }

  /** The places of the non-indexed arguments among the first `n`. */
  ghost function Plain(args: seq<Argument>, n: nat): set<nat>
    requires n <= |args|
  {
    set j: nat | j < n && !args[j].indexed
  }

  lemma PlainNext(args: seq<Argument>, n: nat)
    requires n < |args|
    ensures |Plain(args, n + 1)| == |Plain(args, n)| + if args[n].indexed then 0 else 1
  {
    assert Plain(args, n + 1) == if args[n].indexed then Plain(args, n) else Plain(args, n) + {n};
  }

  /** There are as many types as non-indexed arguments. */
  lemma {:induction false} NonIndexedCount(args: seq<Argument>, n: nat)
    requires n <= |args|
    ensures |NonIndexed(args[..n])| == |Plain(args, n)|
  {
    if n > 0 {
      NonIndexedCount(args, n - 1);
      PlainNext(args, n - 1);
      assert args[..n][..n - 1] == args[..n - 1];
    }
  }

  /** They come in order: the type of a non-indexed argument has as many before it as there are
      non-indexed arguments before that one. */
  lemma {:induction false} NonIndexedAt(args: seq<Argument>, i: nat, n: nat)
    requires i < n <= |args| && !args[i].indexed
    ensures |Plain(args, i)| < |NonIndexed(args[..n])| && NonIndexed(args[..n])[|Plain(args, i)|] == args[i].t
  {
    NonIndexedCount(args, n - 1);
    assert args[..n][..n - 1] == args[..n - 1];
    if i < n - 1 { NonIndexedAt(args, i, n - 1); }
  }

  method FilterIndexed(args: seq<Argument>) returns (ret: seq<Type>)
    ensures ret == NonIndexed(args)
  {
    ret := [];
    for i := 0 to |args|
      invariant ret == NonIndexed(args[..i])
    {
      assert args[..i + 1][..i] == args[..i];
      if !args[i].indexed {
        ret := ret + [args[i].t];
      }
    }
    assert args[..|args|] == args;
  }

  lemma DecodeNext(ts: seq<Type>, index: nat, pos: nat, data: seq<byte>, values: seq<Value>)
    requires TypesOk(ts) && index < |ts|
    ensures
      var r := Prepend(values, DecodeArgs(ts[index..], pos, data));
      match Decode(pos, ts[index], data)
      case Err(e) => r == Err(e)
      case Ok(v) => r == Prepend(values + [v], DecodeArgs(ts[index + 1..], pos + WORD * WordCount(ts[index]), data))
  {
    assert ts[index..][0] == ts[index] && ts[index..][1..] == ts[index + 1..];
    var one := Decode(pos, ts[index], data);
    if one.Ok? {
      PrependChain(values, [one.value], DecodeArgs(ts[index + 1..], pos + WORD * WordCount(ts[index]), data));
    }
  }

  /** Decodes the non-indexed arguments, keeping count of the extra inline words of arrays. */
  method UnpackValues(args: seq<Argument>, data: seq<byte>) returns (r: Result<seq<Value>>)
    requires TypesOk(NonIndexed(args))
    ensures r == DecodeArgs(NonIndexed(args), 0, data)
  {
    var ts := FilterIndexed(args);
    var values: seq<Value> := [];
    PrependChain([], [], DecodeArgs(ts, 0, data));
    var virtualArgs: int := 0;
    var index := 0;
    while index < |ts|
      invariant index <= |ts| && index + virtualArgs >= 0
      invariant DecodeArgs(ts, 0, data)
             == Prepend(values, DecodeArgs(ts[index..], (index + virtualArgs) * WORD, data))
    {
      var t := ts[index];
      DecodeNext(ts, index, (index + virtualArgs) * WORD, data, values);
      var one := Decode((index + virtualArgs) * WORD, t, data);
      if one.Err? {
        return Err(one.error);
      }
      if t.TArray? {
        var size := ArraySize(t);
        virtualArgs := virtualArgs + size - 1;
      }
      values := values + [one.value];
      index := index + 1;
    }
    assert values + [] == values;
    return Ok(values);
  }
}
