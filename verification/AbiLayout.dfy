/** Where the encoder puts every byte (package accounts/abi): the layout of the contract ABI, by index. */
module AbiLayout {
  import opened Types
  import opened Words
  import opened Abi
  import opened AbiRoundTrip

  predicate ZeroFrom(data: seq<byte>, from: nat, to: nat) {
    to <= |data| && forall k :: from <= k < to ==> data[k] == 0
  }

  /** Bytes in front of zeros, together a whole word. */
  predicate LeftAligned(s: seq<byte>, at: nat, data: seq<byte>) {
    |s| <= 32 && at + 32 <= |data| && data[at..at + |s|] == s && ZeroFrom(data, at + |s|, at + 32)
  }

  /** A word with the length, the bytes, and zeros up to a whole number of words. */
  predicate LaysBytes(s: seq<byte>, at: nat, data: seq<byte>) {
    && at + 32 + |s| <= |data|
    && Unsigned(data[at..at + 32]) == |s|
    && data[at + 32..at + 32 + |s|] == s
    && ZeroFrom(data, at + 32 + |s|, at + 32 + (|s| + 31) / 32 * 32)
  }

  /** The layout of one value at `at`: a number in two's complement over a whole word, a truth value as 0 or 1,
      an address behind 12 zero bytes, fixed bytes and functions in front of zeros, text and blobs behind their
      length, and lists item by item, a slice behind its length. */
  predicate Lays(t: Type, v: Value, at: nat, data: seq<byte>)
    decreases t, 0
  {
    match t
    case TNum(_, _) => v.Num? && at + 32 <= |data| && Unsigned(data[at..at + 32]) == v.n % Span(32)
    case TBool => v.Bool? && at + 32 <= |data| && Unsigned(data[at..at + 32]) == if v.b then 1 else 0
    case TAddress => v.Fixed? && at + 32 <= |data| && ZeroFrom(data, at, at + 12) && data[at + 12..at + 32] == v.bytes
    case TFixedBytes(size) => v.Fixed? && |v.bytes| == size && LeftAligned(v.bytes, at, data)
    case TFunction => v.Fixed? && |v.bytes| == 24 && LeftAligned(v.bytes, at, data)
    case TString => v.Text? && LaysBytes(v.text, at, data)
    case TBytes => v.Blob? && LaysBytes(v.blob, at, data)
    case TSlice(elem) =>
      && v.List? && at + 32 <= |data| && Unsigned(data[at..at + 32]) == |v.items|
      && LaysAll(elem, v.items, at + 32, data)
    case TArray(length, elem) => v.List? && |v.items| == length && LaysAll(elem, v.items, at, data)
  }

  /** The items, each right behind the one before. */
  predicate LaysAll(elem: Type, items: seq<Value>, at: nat, data: seq<byte>)
    decreases elem, |items| + 1
  {
    items == [] || (Lays(elem, items[0], at, data) && LaysAll(elem, items[1..], at + 32 * WordCount(elem), data))
  }

  /** How many bytes a value takes. */
  function Size(t: Type, v: Value): nat {
    match v
    case Text(s) => 32 + (|s| + 31) / 32 * 32
    case Blob(s) => 32 + (|s| + 31) / 32 * 32
    case List(items) => if t.TSlice? then 32 + 32 * |items| else 32 * WordCount(t)
    case _ => 32 * WordCount(t)
  }

  // ---------------------------------------------------------------- what is encoded at all

  /** The type check, constructor by constructor: the Go kind of a number, the length of fixed bytes and of an
      array, and every item of a list, which must not be empty if its items are arrays. */
  lemma ChecksIff(t: Type, v: Value)
    ensures Checks(t, v) <==>
      match t
      case TNum(unsigned, bits) =>
        v.Num? && v.kind == if bits in {8, 16, 32, 64} then Machine(unsigned, bits / 8) else Big
      case TBool => v.Bool?
      case TString => v.Text?
      case TBytes => v.Blob?
      case TAddress => v.Fixed?
      case TFunction => v.Fixed?
      case TFixedBytes(size) => v.Fixed? && |v.bytes| == size
      case TSlice(elem) =>
        && v.List? && (elem.TArray? ==> v.items != [])
        && forall i :: 0 <= i < |v.items| ==> Checks(elem, v.items[i])
      case TArray(length, elem) =>
        && v.List? && |v.items| == length && (elem.TArray? ==> v.items != [])
        && forall i :: 0 <= i < |v.items| ==> Checks(elem, v.items[i])
  {
    if IsList(t) && v.List? { ChecksAllIff(t.elem, v.items); }
  }

  lemma {:induction false} ChecksAllIff(elem: Type, items: seq<Value>)
    ensures ChecksAll(elem, items) <==> forall i :: 0 <= i < |items| ==> Checks(elem, items[i])
    decreases |items|
  {
    if items != [] {
      ChecksAllIff(elem, items[1..]);
      assert forall i :: 0 < i < |items| ==> items[i] == items[1..][i - 1];
    }
  }

  // ---------------------------------------------------------------- one value

  lemma SitsAt(piece: seq<byte>, at: nat, data: seq<byte>)
    requires Sits(piece, at, data)
    ensures forall k :: at <= k < at + |piece| ==> data[k] == piece[k - at]
    ensures forall i, j :: 0 <= i <= j <= |piece| ==> data[at + i..at + j] == piece[i..j]
  {
    forall k | at <= k < at + |piece| ensures data[k] == piece[k - at] {
      assert data[at..at + |piece|][k - at] == data[k];
    }
  }

  lemma BytesLaid(s: seq<byte>, at: nat, data: seq<byte>)
    requires Sits(PackBytes(s, |s|), at, data) && |data| < INT64_LIMIT
    ensures |PackBytes(s, |s|)| == 32 + (|s| + 31) / 32 * 32 && LaysBytes(s, at, data)
  {
    var word, body := Bytes(|s|, WORD), RightPad(s, (|s| + 31) / 32 * 32);
    SitsParts(word, body, at, data);
    SmallWord(|s|, |data|);
    SitsAt(body, at + 32, data);
    assert body[0..|s|] == s;
  }

  lemma ElementLaid(t: Type, v: Value, at: nat, data: seq<byte>)
    requires Static(t) && !IsList(t) && TypedElement(t, v) && Sits(EncodeElement(t, v), at, data)
    ensures |EncodeElement(t, v)| == 32 && Lays(t, v, at, data)
  {
    ElementBack(t, v, at, data);
    var word := EncodeElement(t, v);
    match t
    case TNum(_, _) => UnsignedBytes(v.n, WORD);
    case TBool => SmallWord(if v.b then 1 else 0, 1);
    case TAddress => SitsAt(word, at, data); assert word[12..32] == v.bytes;
    case TFixedBytes(size) => SitsAt(word, at, data); assert word[0..size] == v.bytes;
    case TFunction => SitsAt(word, at, data); assert word[0..24] == v.bytes;
  }

  /** Wherever the encoding of a value is put, it has the layout. */
  lemma {:induction false} StaticLaid(t: Type, v: Value, at: nat, data: seq<byte>)
    requires Static(t) && Typed(t, v) && Sits(Encode(t, v), at, data)
    ensures |Encode(t, v)| == 32 * WordCount(t) && Lays(t, v, at, data)
    decreases t, 0
  {
    StaticSize(t, v);
    if t.TArray? {
      StaticsLaid(t.elem, v.items, at, data);
    } else {
      ElementLaid(t, v, at, data);
    }
  }

  lemma {:induction false} StaticsLaid(elem: Type, items: seq<Value>, at: nat, data: seq<byte>)
    requires Static(elem) && AllTyped(elem, items) && Sits(EncodeAll(elem, items), at, data)
    ensures LaysAll(elem, items, at, data)
    decreases elem, |items| + 1
  {
    if items != [] {
      SitsParts(Encode(elem, items[0]), EncodeAll(elem, items[1..]), at, data);
      StaticLaid(elem, items[0], at, data);
      StaticsLaid(elem, items[1..], at + 32 * WordCount(elem), data);
    }
  }

  lemma SliceLaid(elem: Type, items: seq<Value>, at: nat, data: seq<byte>)
    requires Static(elem) && !elem.TArray? && AllTyped(elem, items) && |data| < INT64_LIMIT
    requires Sits(PackBytes(EncodeAll(elem, items), |items|), at, data)
    ensures |PackBytes(EncodeAll(elem, items), |items|)| == 32 + 32 * |items|
    ensures Lays(TSlice(elem), List(items), at, data)
  {
    var body := EncodeAll(elem, items);
    FlatSize(elem, items);
    PackedSits(body, |items|, at, data);
    SmallWord(|items|, |data|);
    StaticsLaid(elem, items, at + 32, data);
  }

  lemma ValueSize(t: Type, v: Value)
    requires Supported(t) && Typed(t, v)
    ensures |Encode(t, v)| == Size(t, v)
  {
    match t
    case TString => BytesSize(v.text);
    case TBytes => BytesSize(v.blob);
    case TSlice(elem) => SliceSize(elem, v.items);
    case _ => StaticSize(t, v);
  }

  lemma BytesSize(s: seq<byte>)
    ensures |PackBytes(s, |s|)| == 32 + (|s| + 31) / 32 * 32
  {
  }

  lemma SliceSize(elem: Type, items: seq<Value>)
    requires Static(elem) && !elem.TArray? && AllTyped(elem, items)
    ensures |PackBytes(EncodeAll(elem, items), |items|)| == 32 + 32 * |items|
  {
    FlatSize(elem, items);
  }

  /** Every value takes whole words. */
  lemma SizeWords(t: Type, v: Value) returns (k: nat)
    ensures Size(t, v) == 32 * k
  {
    match v
    case Text(s) => k := 1 + (|s| + 31) / 32;
    case Blob(s) => k := 1 + (|s| + 31) / 32;
    case List(items) => k := if t.TSlice? then 1 + |items| else WordCount(t);
    case _ => k := WordCount(t);
  }

  lemma ValueLaid(t: Type, v: Value, at: nat, data: seq<byte>)
    requires Supported(t) && Typed(t, v) && Sits(Encode(t, v), at, data) && |data| < INT64_LIMIT
    ensures Lays(t, v, at, data)
  {
    match t
    case TString => BytesLaid(v.text, at, data);
    case TBytes => BytesLaid(v.blob, at, data);
    case TSlice(elem) => SliceLaid(elem, v.items, at, data);
    case _ => StaticLaid(t, v, at, data);
  }

  // ---------------------------------------------------------------- argument lists

  /** The bytes of the dynamic ones among the first `i` arguments. */
  function TailSize(ts: seq<Type>, vs: seq<Value>, i: nat): nat
    requires i <= |ts| == |vs|
  {
    if i == 0 then 0 else TailSize(ts, vs, i - 1) + if Prefixed(ts[i - 1]) then Size(ts[i - 1], vs[i - 1]) else 0
  }

  lemma {:induction false} TailSizeIs(ts: seq<Type>, vs: seq<Value>, i: nat)
    requires Arguments(ts, vs) && i <= |ts|
    ensures |Tails(Pieces(ts, vs)[..i])| == TailSize(ts, vs, i)
  {
    if i > 0 {
      TailSizeIs(ts, vs, i - 1);
      ValueSize(ts[i - 1], vs[i - 1]);
      TailsNext(ts, vs, i - 1);
    }
  }

  lemma TailsNext(ts: seq<Type>, vs: seq<Value>, i: nat)
    requires i < |ts| == |vs|
    ensures |Tails(Pieces(ts, vs)[..i + 1])| ==
      |Tails(Pieces(ts, vs)[..i])| + if Prefixed(ts[i]) then |Encode(ts[i], vs[i])| else 0
  {
    var ps := Pieces(ts, vs);
    TailsSnoc(ps[..i], ps[i]);
    assert ps[..i + 1] == ps[..i] + [ps[i]];
  }

  lemma {:induction false} TailWords(ts: seq<Type>, vs: seq<Value>, i: nat) returns (k: nat)
    requires i <= |ts| == |vs|
    ensures TailSize(ts, vs, i) == 32 * k
  {
    k := 0;
    if i > 0 {
      var front := TailWords(ts, vs, i - 1);
      var last := SizeWords(ts[i - 1], vs[i - 1]);
      k := if Prefixed(ts[i - 1]) then front + last else front;
    }
  }

  /** The head the encoder reckons with: a word for every argument, and as many as its length for an array. */
  lemma {:induction false} CountedSnoc(ts: seq<Type>, t: Type)
    ensures Counted([]) == 0
    ensures Counted(ts + [t]) == Counted(ts) + 32 * if t.TArray? then t.length else 1
  {
    if ts == [] {
      assert ts + [t] == [t];
    } else {
      CountedSnoc(ts[1..], t);
      assert (ts + [t])[1..] == ts[1..] + [t];
    }
  }

  lemma {:induction false} CountedWords(ts: seq<Type>) returns (k: nat)
    ensures Counted(ts) == 32 * k
  {
    k := 0;
    if ts != [] {
      var rest := CountedWords(ts[1..]);
      k := rest + if ts[0].TArray? then ts[0].length else 1;
    }
  }

  lemma Multiple(n: nat, k: nat)
    requires n == 32 * k
    ensures n % 32 == 0
  {
  }

  /** An encoded argument list is the heads followed by the dynamic arguments, in whole words. */
  lemma PackedSize(ts: seq<Type>, vs: seq<Value>)
    requires Arguments(ts, vs)
    ensures |Packed(ts, vs)| == 32 * Inline(ts) + TailSize(ts, vs, |ts|) && |Packed(ts, vs)| % 32 == 0
  {
    var ps := Pieces(ts, vs);
    LayoutSize(ts, vs);
    TailSizeIs(ts, vs, |ts|);
    assert ps[..|ts|] == ps;
    var k := TailWords(ts, vs, |ts|);
    Multiple(|Packed(ts, vs)|, Inline(ts) + k);
  }

  /** Each static argument is laid out in the head, behind those before it. */
  lemma StaticArgument(ts: seq<Type>, vs: seq<Value>, i: nat)
    requires Arguments(ts, vs) && i < |ts| && !Prefixed(ts[i]) && |Packed(ts, vs)| < INT64_LIMIT
    ensures Lays(ts[i], vs[i], 32 * Inline(ts[..i]), Packed(ts, vs))
  {
    HeadPlaces(ts, vs, i);
    HeadSits(Pieces(ts, vs), i, Counted(ts));
    ValueLaid(ts[i], vs[i], 32 * Inline(ts[..i]), Packed(ts, vs));
  }

  /** Each dynamic one is laid out behind the heads, behind the dynamic ones before it. */
  lemma DynamicArgument(ts: seq<Type>, vs: seq<Value>, i: nat)
    requires Arguments(ts, vs) && i < |ts| && Prefixed(ts[i]) && |Packed(ts, vs)| < INT64_LIMIT
    ensures Lays(ts[i], vs[i], 32 * Inline(ts) + TailSize(ts, vs, i), Packed(ts, vs))
  {
    var place, data := 32 * Inline(ts) + TailSize(ts, vs, i), Packed(ts, vs);
    DynamicSits(ts, vs, i, place, data);
    ValueLaid(ts[i], vs[i], place, data);
  }

  lemma DynamicSits(ts: seq<Type>, vs: seq<Value>, i: nat, place: nat, data: seq<byte>)
    requires Arguments(ts, vs) && i < |ts| && Prefixed(ts[i])
    requires place == 32 * Inline(ts) + TailSize(ts, vs, i) && data == Packed(ts, vs)
    ensures Sits(Encode(ts[i], vs[i]), place, data)
  {
    var ps := Pieces(ts, vs);
    TailStart(ts, vs, i);
    TailSitsAt(ps, i, Counted(ts), place, data);
  }

  lemma TailSitsAt(ps: seq<Piece>, i: nat, offset: nat, place: nat, data: seq<byte>)
    requires i < |ps| && ps[i].dynamic && place == TailPlace(ps, i) && data == Layout(ps, offset)
    ensures Sits(ps[i].bytes, place, data)
  {
    TailSits(ps, i, offset);
  }

  lemma TailStart(ts: seq<Type>, vs: seq<Value>, i: nat)
    requires Arguments(ts, vs) && i <= |ts|
    ensures TailPlace(Pieces(ts, vs), i) == 32 * Inline(ts) + TailSize(ts, vs, i)
  {
    var ps := Pieces(ts, vs);
    HeadPlaces(ts, vs, |ts|);
    TailSizeIs(ts, vs, i);
    assert ts[..|ts|] == ts && ps[..|ps|] == ps;
  }

  /** The head word of a dynamic argument is the counted head plus the dynamic ones before it, which is a whole
      number of words, and is where the argument is exactly when no array holds arrays of more than one word. */
  lemma DynamicOffset(ts: seq<Type>, vs: seq<Value>, i: nat)
    requires Arguments(ts, vs) && i < |ts| && Prefixed(ts[i]) && |Packed(ts, vs)| < INT64_LIMIT
    ensures 32 * Inline(ts[..i]) + 32 <= |Packed(ts, vs)|
    ensures
      var offset := Unsigned(Packed(ts, vs)[32 * Inline(ts[..i])..32 * Inline(ts[..i]) + 32]);
      && offset == Counted(ts) + TailSize(ts, vs, i)
      && offset % 32 == 0
      && (offset == 32 * Inline(ts) + TailSize(ts, vs, i) <==> Flat(ts))
  {
    var offset := OffsetRead(ts, vs, i);
    CountedIff(ts);
    Whole(ts, vs, i, offset);
  }

  lemma OffsetRead(ts: seq<Type>, vs: seq<Value>, i: nat) returns (offset: nat)
    requires Arguments(ts, vs) && i < |ts| && Prefixed(ts[i]) && |Packed(ts, vs)| < INT64_LIMIT
    ensures 32 * Inline(ts[..i]) + 32 <= |Packed(ts, vs)|
    ensures offset == Unsigned(Packed(ts, vs)[32 * Inline(ts[..i])..32 * Inline(ts[..i]) + 32])
    ensures offset == Counted(ts) + TailSize(ts, vs, i)
  {
    OffsetWord(ts, vs, i);
    TailSizeIs(ts, vs, i);
    offset := Counted(ts) + TailSize(ts, vs, i);
  }

  lemma Whole(ts: seq<Type>, vs: seq<Value>, i: nat, n: nat)
    requires Arguments(ts, vs) && i <= |ts| && n == Counted(ts) + TailSize(ts, vs, i)
    ensures n % 32 == 0
  {
    var head := CountedWords(ts);
    var tail := TailWords(ts, vs, i);
    Multiple(n, head + tail);
  }
}
