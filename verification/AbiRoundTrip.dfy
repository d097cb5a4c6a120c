/** Decoding undoes encoding. */
module AbiRoundTrip {
  import opened Types
  import opened Words
  import opened Abi

  /** Types laid out inline: elementary ones and nested non-empty arrays of them. */
  predicate Static(t: Type) {
    match t
    case TNum(_, _) => true
    case TBool => true
    case TAddress => true
    case TFunction => true
    case TFixedBytes(size) => size <= WORD
    case TArray(length, elem) => length > 0 && Static(elem)
    case _ => false
  }

  /** The types the codec round-trips: a slice steps one word per element, so its elements must
      be elementary. */
  predicate Supported(t: Type) {
    || Static(t)
    || t.TString?
    || t.TBytes?
    || (t.TSlice? && Static(t.elem) && !t.elem.TArray?)
  }

  predicate InRange(kind: Kind, n: int) {
    match kind
    case Big => true
    case Machine(true, width) => 0 <= n < Span(width)
    case Machine(false, width) => -Span(width) <= 2 * n < Span(width)
  }

  /** `v` is a value of the Go type that `t` stands for. Machine integers fit their width by their
      Go type; big integers have no bound. */
  predicate Typed(t: Type, v: Value)
    decreases t, 0
  {
    if IsList(t) then v.List? && (t.TArray? ==> |v.items| == t.length) && AllTyped(t.elem, v.items)
    else TypedElement(t, v)
  }

  predicate AllTyped(elem: Type, items: seq<Value>)
    decreases elem, |items| + 1
  {
    items == [] || (Typed(elem, items[0]) && AllTyped(elem, items[1..]))
  }

  predicate TypedElement(t: Type, v: Value)
    requires !IsList(t)
  {
    && ChecksElement(t, v)
    && (t.TNum? ==> InRange(v.kind, v.n))
    && (t.TAddress? ==> |v.bytes| == 20)
    && (t.TFunction? ==> |v.bytes| == 24)
  }

  /** What comes back: a big integer as the unsigned reading of its word, which is its residue
      modulo 2^256, and everything else unchanged. */
  function Recovered(v: Value): (w: Value) {
    match v
    case Num(Big, n) => Num(Big, Unsigned(Bytes(n, WORD)))
    case List(items) => List(RecoveredAll(items))
    case _ => v
  }

  function RecoveredAll(vs: seq<Value>): (ws: seq<Value>)
    ensures |ws| == |vs|
  {
    if vs == [] then [] else [Recovered(vs[0])] + RecoveredAll(vs[1..])
  }

  /** Every big integer in the value is an unsigned 256-bit number. */
  predicate Fits(v: Value) {
    match v
    case Num(Big, n) => 0 <= n < Span(WORD)
    case List(items) => AllFit(items)
    case _ => true
  }

  predicate AllFit(vs: seq<Value>) {
    vs == [] || (Fits(vs[0]) && AllFit(vs[1..]))
  }

  lemma BigBack(n: int)
    ensures Recovered(Num(Big, n)) == Num(Big, n % Span(WORD))
    ensures Recovered(Num(Big, n)) == Num(Big, n) <==> Fits(Num(Big, n))
  {
    var m := Span(WORD);
    UnsignedBytes(n, WORD);
    if 0 <= n < m {
      UniqueMod(n, m, 0, n);
    }
  }

  lemma {:induction false} RecoveredIff(v: Value)
    ensures Recovered(v) == v <==> Fits(v)
  {
    match v
    case Num(Big, n) => BigBack(n);
    case List(items) => RecoveredAllIff(items);
    case _ =>
  }

  lemma {:induction false} RecoveredAllIff(vs: seq<Value>)
    ensures RecoveredAll(vs) == vs <==> AllFit(vs)
  {
    if vs != [] {
      RecoveredIff(vs[0]);
      RecoveredAllIff(vs[1..]);
      assert vs == [vs[0]] + vs[1..];
      var ws := RecoveredAll(vs);
      assert ws[0] == Recovered(vs[0]) && ws[1..] == RecoveredAll(vs[1..]);
    }
  }

  lemma {:induction false} RecoveredAt(vs: seq<Value>, i: nat)
    requires i < |vs|
    ensures RecoveredAll(vs)[i] == Recovered(vs[i])
  {
    if i > 0 {
      RecoveredAt(vs[1..], i - 1);
    }
  }

  // ---------------------------------------------------------------- one value

  lemma NumberBack(kind: Kind, n: int)
    requires InRange(kind, n)
    requires kind.Machine? ==> kind.width <= WORD
    ensures ReadInteger(kind, Bytes(n, WORD)) == Recovered(Num(kind, n))
  {
    match kind
    case Big =>
    case Machine(unsigned, width) =>
      LowBytes(n, WORD, width);
      if unsigned {
        UnsignedRoundTrip(n, width);
      } else {
        SignedRoundTrip(n, width);
      }
  }

  lemma FunctionBack(s: seq<byte>)
    requires |s| == 24
    ensures var word := RightPad(s, WORD);
        |word| == WORD && word[..24] == s && Unsigned(word[24..]) == 0
  {
    var word := RightPad(s, WORD);
    assert word[24..] == Zeros(8);
    UnsignedZero(word[24..]);
  }

  lemma BoolBack(b: bool)
    ensures BoolOf(Bytes(if b then 1 else 0, WORD)) == Ok(Bool(b))
  {
    BoolWords();
    assert (Zeros(31) + [0])[31] == 0;
    assert (Zeros(31) + [1])[31] == 1;
  }

  /** `piece` sits in `data` at `at`. */
  predicate Sits(piece: seq<byte>, at: nat, data: seq<byte>) {
    at + |piece| <= |data| && data[at..at + |piece|] == piece
  }

  lemma SitsParts(a: seq<byte>, b: seq<byte>, at: nat, data: seq<byte>)
    requires Sits(a + b, at, data)
    ensures Sits(a, at, data) && Sits(b, at + |a|, data)
  {
    var whole := data[at..at + |a + b|];
    assert whole[..|a|] == a && whole[|a|..] == b;
    assert whole[..|a|] == data[at..at + |a|];
    assert whole[|a|..] == data[at + |a|..at + |a| + |b|];
  }

  lemma {:induction false} ElementBack(t: Type, v: Value, at: nat, data: seq<byte>)
    requires Static(t) && !IsList(t) && TypedElement(t, v) && Sits(EncodeElement(t, v), at, data)
    ensures |EncodeElement(t, v)| == WORD
    ensures Decode(at, t, data) == Ok(Recovered(v))
  {
    match t
    case TNum(_, _) => NumberBack(v.kind, v.n);
    case TBool => BoolBack(v.b);
    case TFunction => FunctionBack(v.bytes);
    case TAddress => assert LeftPad(v.bytes, WORD)[12..] == v.bytes;
    case TFixedBytes(size) => assert RightPad(v.bytes, WORD)[..size] == v.bytes;
  }

  lemma {:induction false} StaticOk(t: Type)
    requires Static(t)
    ensures TypeOk(t) && WordCount(t) > 0
  {
    if t.TArray? {
      StaticOk(t.elem);
    }
  }

  lemma Times(n: nat, w: nat)
    ensures WORD * (n * w) == n * (WORD * w)
    ensures w > 0 ==> WORD * n <= n * (WORD * w)
  {
    assert w > 0 ==> n * w >= n;
  }

  lemma OneMore(n: nat, w: nat)
    ensures (n + 1) * w == w + n * w
  {
  }

  lemma {:induction false} StaticSize(t: Type, v: Value)
    requires Static(t) && Typed(t, v)
    ensures |Encode(t, v)| == WORD * WordCount(t)
    decreases t, 0
  {
    if t.TArray? {
      StaticsSize(t.elem, v.items);
      Times(t.length, WordCount(t.elem));
    }
  }

  lemma {:induction false} StaticsSize(elem: Type, items: seq<Value>)
    requires Static(elem) && AllTyped(elem, items)
    ensures |EncodeAll(elem, items)| == |items| * (WORD * WordCount(elem))
    decreases elem, |items| + 1
  {
    if items != [] {
      StaticSize(elem, items[0]);
      StaticsSize(elem, items[1..]);
      OneMore(|items[1..]|, WORD * WordCount(elem));
    }
  }

  /** A static value is read back from wherever its encoding sits. */
  lemma {:induction false} StaticBack(t: Type, v: Value, at: nat, data: seq<byte>)
    requires Static(t) && TypeOk(t) && Typed(t, v) && Sits(Encode(t, v), at, data)
    ensures Decode(at, t, data) == Ok(Recovered(v))
    decreases t, 0
  {
    if t.TArray? {
      var step := WORD * WordCount(t.elem);
      StaticOk(t);
      StaticOk(t.elem);
      StaticsSize(t.elem, v.items);
      StaticsBack(t.elem, v.items, at, data, step);
      ListRoom(t, v, at, data);
      assert Decode(at, t, data) == DecodeList(t.elem, data, at, t.length, step);
    } else {
      ElementBack(t, v, at, data);
    }
  }

  lemma ListRoom(t: Type, v: Value, at: nat, data: seq<byte>)
    requires t.TArray? && Static(t) && Typed(t, v) && Sits(Encode(t, v), at, data)
    ensures at + WORD <= |data| && at + WORD * t.length <= |data|
  {
    StaticSize(t, v);
    StaticOk(t);
    StaticOk(t.elem);
    Times(t.length, WordCount(t.elem));
  }

  lemma {:induction false} StaticsBack(elem: Type, items: seq<Value>, at: nat, data: seq<byte>, step: nat)
    requires Static(elem) && TypeOk(elem) && step == WORD * WordCount(elem)
    requires AllTyped(elem, items)
    requires Sits(EncodeAll(elem, items), at, data)
    ensures DecodeEach(elem, data, at, |items|, step) == Ok(RecoveredAll(items))
    decreases elem, |items| + 1
  {
    if items != [] {
      var first, rest := items[0], items[1..];
      SitsParts(Encode(elem, first), EncodeAll(elem, rest), at, data);
      StaticSize(elem, first);
      StaticBack(elem, first, at, data);
      StaticsBack(elem, rest, at + step, data, step);
      EachStep(elem, data, at, items, step);
    }
  }

  lemma EachStep(elem: Type, data: seq<byte>, at: nat, items: seq<Value>, step: nat)
    requires TypeOk(elem) && items != []
    requires Decode(at, elem, data) == Ok(Recovered(items[0]))
    requires DecodeEach(elem, data, at + step, |items| - 1, step) == Ok(RecoveredAll(items[1..]))
    ensures DecodeEach(elem, data, at, |items|, step) == Ok(RecoveredAll(items))
  {
  }

  /** A dynamic value is read back from a head word holding the place of its encoding. */
  lemma DynamicBack(t: Type, v: Value, at: nat, place: nat, data: seq<byte>)
    requires Supported(t) && Prefixed(t) && TypeOk(t) && Typed(t, v)
    requires Sits(Bytes(place, WORD), at, data) && Sits(Encode(t, v), place, data)
    requires |data| < INT64_LIMIT
    ensures Decode(at, t, data) == Ok(Recovered(v))
  {
    if t.TSlice? {
      SliceBack(t.elem, v.items, at, place, data);
    } else {
      PlainBack(t, v, if t.TString? then v.text else v.blob, at, place, data);
    }
  }

  lemma PlainBack(t: Type, v: Value, body: seq<byte>, at: nat, place: nat, data: seq<byte>)
    requires (t.TString? && v == Text(body)) || (t.TBytes? && v == Blob(body))
    requires Sits(Bytes(place, WORD), at, data) && Sits(PackBytes(body, |body|), place, data) && |data| < INT64_LIMIT
    ensures Decode(at, t, data) == Ok(Recovered(v))
  {
    PrefixBack(body, |body|, at, place, data);
  }

  lemma SliceBack(elem: Type, items: seq<Value>, at: nat, place: nat, data: seq<byte>)
    requires Static(elem) && !elem.TArray? && TypeOk(elem)
    requires AllTyped(elem, items)
    requires Sits(Bytes(place, WORD), at, data)
    requires Sits(PackBytes(EncodeAll(elem, items), |items|), place, data)
    requires |data| < INT64_LIMIT
    ensures Decode(at, TSlice(elem), data) == Ok(Recovered(List(items)))
  {
    SlicePrefix(elem, items, at, place, data);
    StaticsBack(elem, items, place + WORD, data, WORD);
    SliceUnfold(elem, at, data, place + WORD, RecoveredAll(items));
  }

  lemma SlicePrefix(elem: Type, items: seq<Value>, at: nat, place: nat, data: seq<byte>)
    requires Static(elem) && !elem.TArray? && AllTyped(elem, items) && |data| < INT64_LIMIT
    requires Sits(Bytes(place, WORD), at, data)
    requires Sits(PackBytes(EncodeAll(elem, items), |items|), place, data)
    ensures LengthPrefix(at, data) == Ok((place + WORD, |items|))
    ensures Sits(EncodeAll(elem, items), place + WORD, data)
    ensures place + WORD + WORD * |items| <= |data|
  {
    var body := EncodeAll(elem, items);
    FlatSize(elem, items);
    PrefixBack(body, |items|, at, place, data);
  }

  lemma FlatSize(elem: Type, items: seq<Value>)
    requires Static(elem) && !elem.TArray? && AllTyped(elem, items)
    ensures |EncodeAll(elem, items)| == WORD * |items|
  {
    StaticsSize(elem, items);
  }

  lemma SliceUnfold(elem: Type, at: nat, data: seq<byte>, begin: nat, items: seq<Value>)
    requires TypeOk(elem) && at + WORD <= |data| && begin + WORD * |items| <= |data|
    requires LengthPrefix(at, data) == Ok((begin, |items|))
    requires DecodeEach(elem, data, begin, |items|, WORD) == Ok(items)
    ensures Decode(at, TSlice(elem), data) == Ok(List(items))
  {
    assert DecodeList(elem, data, begin, |items|, WORD) == Ok(List(items));
    assert Contents(begin, |items|, TSlice(elem), data) == Ok(List(items));
  }

  /** The length prefix written for `body` leads back to `body`. */
  lemma PrefixBack(body: seq<byte>, length: nat, at: nat, place: nat, data: seq<byte>)
    requires length <= |body|
    requires Sits(Bytes(place, WORD), at, data) && Sits(PackBytes(body, length), place, data)
    requires |data| < INT64_LIMIT
    ensures LengthPrefix(at, data) == Ok((place + WORD, length))
    ensures Sits(body, place + WORD, data)
  {
    PackedSits(body, length, place, data);
    SmallWord(place, |data|);
    SmallWord(length, |data|);
    ReadsPrefix(at, place, length, data);
  }

  lemma PackedSits(body: seq<byte>, length: nat, place: nat, data: seq<byte>)
    requires length <= |body| && Sits(PackBytes(body, length), place, data)
    ensures Sits(Bytes(length, WORD), place, data) && Sits(body, place + WORD, data)
    ensures place + WORD + length <= |data|
  {
    var padding := RightPad(body, (length + 31) / 32 * 32);
    SitsParts(Bytes(length, WORD), padding, place, data);
    assert padding == body + padding[|body|..];
    SitsParts(body, padding[|body|..], place + WORD, data);
  }

  lemma ReadsPrefix(at: nat, place: nat, length: nat, data: seq<byte>)
    requires at + WORD <= |data| && place + WORD + length <= |data| < INT64_LIMIT
    requires Unsigned(data[at..at + WORD]) == place && Unsigned(data[place..place + WORD]) == length
    ensures LengthPrefix(at, data) == Ok((place + WORD, length))
  {
    var offsetEnd := place + WORD;
    assert data[offsetEnd - WORD..offsetEnd] == data[place..place + WORD];
  }

  /** Sizes below the 64-bit limit survive a word. */
  lemma SmallWord(n: nat, limit: nat)
    requires n <= limit < INT64_LIMIT
    ensures Unsigned(Bytes(n, WORD)) == n
  {
    assert Span(8) == 0x1_0000_0000_0000_0000;
    SpanMonotone(8, WORD);
    UnsignedRoundTrip(n, WORD);
  }

  // ---------------------------------------------------------------- argument lists

  function Layout(ps: seq<Piece>, offset: nat): seq<byte> {
    Head(ps, offset) + Tails(ps)
  }

  /** Where the head of piece `i` begins. */
  function HeadPlace(ps: seq<Piece>, i: nat): nat
    requires i <= |ps|
  {
    |Head(ps[..i], 0)|
  }

  /** Where the tail of piece `i` begins. */
  function TailPlace(ps: seq<Piece>, i: nat): nat
    requires i <= |ps|
  {
    |Head(ps, 0)| + |Tails(ps[..i])|
  }

  lemma {:induction false} HeadLength(ps: seq<Piece>, a: nat, b: nat)
    ensures |Head(ps, a)| == |Head(ps, b)|
  {
    if ps != [] {
      var d := if ps[0].dynamic then |ps[0].bytes| else 0;
      HeadLength(ps[1..], a + d, b + d);
    }
  }

  lemma PlaceStep(ps: seq<Piece>, i: nat)
    requires i < |ps|
    ensures HeadPlace(ps, i + 1) == HeadPlace(ps, i) + (if ps[i].dynamic then WORD else |ps[i].bytes|)
  {
    assert ps[..i + 1] == ps[..i] + [ps[i]];
    HeadSnoc(ps[..i], ps[i], 0);
  }

  lemma {:induction false} HeadPrefix(ps: seq<Piece>, i: nat, offset: nat)
    requires i <= |ps|
    ensures Head(ps[..i], offset) <= Head(ps, offset)
    decreases |ps| - i
  {
    if i == |ps| {
      assert ps[..i] == ps;
    } else {
      HeadPrefix(ps, i + 1, offset);
      assert ps[..i + 1] == ps[..i] + [ps[i]];
      HeadSnoc(ps[..i], ps[i], offset);
    }
  }

  lemma {:induction false} TailsPrefix(ps: seq<Piece>, i: nat)
    requires i <= |ps|
    ensures Tails(ps[..i]) <= Tails(ps)
    decreases |ps| - i
  {
    if i == |ps| {
      assert ps[..i] == ps;
    } else {
      TailsPrefix(ps, i + 1);
      assert ps[..i + 1] == ps[..i] + [ps[i]];
      TailsSnoc(ps[..i], ps[i]);
    }
  }

  lemma PrefixSits(a: seq<byte>, b: seq<byte>, whole: seq<byte>)
    requires a + b <= whole
    ensures Sits(b, |a|, whole)
  {
    assert whole[|a|..|a| + |b|] == (a + b)[|a|..];
  }

  lemma SitsBehind(piece: seq<byte>, at: nat, front: seq<byte>, back: seq<byte>)
    ensures Sits(piece, at, front) ==> Sits(piece, at, front + back)
    ensures Sits(piece, at, back) ==> Sits(piece, |front| + at, front + back)
  {
    if Sits(piece, at, front) {
      assert (front + back)[at..at + |piece|] == front[at..at + |piece|];
    }
    if Sits(piece, at, back) {
      assert (front + back)[|front| + at..|front| + at + |piece|] == back[at..at + |piece|];
    }
  }

  /** The head of piece `i` holds the piece, or for a dynamic piece the running offset. */
  lemma HeadSits(ps: seq<Piece>, i: nat, offset: nat)
    requires i < |ps|
    ensures Sits(if ps[i].dynamic then Bytes(offset + |Tails(ps[..i])|, WORD) else ps[i].bytes,
                 HeadPlace(ps, i), Layout(ps, offset))
  {
    assert ps[..i + 1] == ps[..i] + [ps[i]];
    HeadSnoc(ps[..i], ps[i], offset);
    HeadPrefix(ps, i + 1, offset);
    HeadLength(ps[..i], 0, offset);
    var x := if ps[i].dynamic then Bytes(offset + |Tails(ps[..i])|, WORD) else ps[i].bytes;
    PrefixSits(Head(ps[..i], offset), x, Head(ps, offset));
    SitsBehind(x, HeadPlace(ps, i), Head(ps, offset), Tails(ps));
  }

  /** The tails are where `TailPlace` says, whatever offsets were written. */
  lemma TailSits(ps: seq<Piece>, i: nat, offset: nat)
    requires i < |ps| && ps[i].dynamic
    ensures Sits(ps[i].bytes, TailPlace(ps, i), Layout(ps, offset))
  {
    assert ps[..i + 1] == ps[..i] + [ps[i]];
    TailsSnoc(ps[..i], ps[i]);
    TailsPrefix(ps, i + 1);
    HeadLength(ps, 0, offset);
    PrefixSits(Tails(ps[..i]), ps[i].bytes, Tails(ps));
    SitsBehind(ps[i].bytes, |Tails(ps[..i])|, Head(ps, offset), Tails(ps));
  }

  /** The bytes the encoder emits for a well-typed argument list. */
  function Packed(ts: seq<Type>, vs: seq<Value>): seq<byte>
    requires |ts| == |vs|
  {
    Layout(Pieces(ts, vs), Counted(ts))
  }

  predicate Arguments(ts: seq<Type>, vs: seq<Value>) {
    |ts| == |vs| && forall k :: 0 <= k < |ts| ==> Supported(ts[k]) && Typed(ts[k], vs[k])
  }

  /** No array holds arrays of more than one word. */
  predicate Flat(ts: seq<Type>) {
    forall k :: 0 <= k < |ts| && ts[k].TArray? ==> WordCount(ts[k].elem) == 1
  }

  predicate AllStatic(ts: seq<Type>) {
    forall k :: 0 <= k < |ts| ==> !Prefixed(ts[k])
  }

  /** The inline words of a type list. */
  function Inline(ts: seq<Type>): nat {
    if ts == [] then 0 else WordCount(ts[0]) + Inline(ts[1..])
  }

  lemma ArrayWords(t: Type)
    requires t.TArray? && t.length > 0 && WordCount(t.elem) > 0
    ensures WordCount(t) >= t.length
    ensures WordCount(t) == t.length <==> WordCount(t.elem) == 1
  {
    Scaled(t.length, WordCount(t.elem));
  }

  lemma {:induction false} Scaled(n: nat, w: nat)
    requires n > 0 && w > 0
    ensures n * w >= n && (n * w == n <==> w == 1)
  {
    if w > 1 {
      Scaled(n, w - 1);
      assert n * w == n * (w - 1) + n;
    }
  }

  lemma {:induction false} CountedIff(ts: seq<Type>)
    requires forall k :: 0 <= k < |ts| ==> Supported(ts[k])
    ensures Counted(ts) <= WORD * Inline(ts)
    ensures Counted(ts) == WORD * Inline(ts) <==> Flat(ts)
  {
    if ts != [] {
      CountedIff(ts[1..]);
      assert Flat(ts) <==> Flat(ts[..1]) && Flat(ts[1..]) by {
        assert ts == ts[..1] + ts[1..];
      }
      if ts[0].TArray? {
        StaticOk(ts[0].elem);
        ArrayWords(ts[0]);
      }
    }
  }

  lemma PieceSize(t: Type, v: Value)
    requires Supported(t) && Typed(t, v)
    ensures !Prefixed(t) ==> |Encode(t, v)| == WORD * WordCount(t)
    ensures Prefixed(t) ==> WordCount(t) == 1
  {
    if !Prefixed(t) {
      StaticSize(t, v);
    }
  }

  lemma {:induction false} HeadPlaces(ts: seq<Type>, vs: seq<Value>, i: nat)
    requires Arguments(ts, vs) && i <= |ts|
    ensures HeadPlace(Pieces(ts, vs), i) == WORD * Inline(ts[..i])
  {
    if i > 0 {
      HeadPlaces(ts, vs, i - 1);
      PlaceStep(Pieces(ts, vs), i - 1);
      PieceSize(ts[i - 1], vs[i - 1]);
      InlineSnoc(ts[..i - 1], ts[i - 1]);
      assert ts[..i] == ts[..i - 1] + [ts[i - 1]];
    }
  }

  lemma {:induction false} InlineSnoc(ts: seq<Type>, t: Type)
    ensures Inline(ts + [t]) == Inline(ts) + WordCount(t)
  {
    if ts == [] {
      assert ts + [t] == [t];
    } else {
      InlineSnoc(ts[1..], t);
      assert (ts + [t])[1..] == ts[1..] + [t];
    }
  }

  /** The encoder's head count is the head's true size exactly when no array holds arrays of more
      than one word. */
  lemma FlatHead(ts: seq<Type>, vs: seq<Value>)
    requires Arguments(ts, vs)
    ensures Counted(ts) <= |Head(Pieces(ts, vs), 0)|
    ensures Counted(ts) == |Head(Pieces(ts, vs), 0)| <==> Flat(ts)
  {
    var ps := Pieces(ts, vs);
    HeadPlaces(ts, vs, |ts|);
    assert ts[..|ts|] == ts && ps[..|ps|] == ps;
    CountedIff(ts);
  }

  /** The offset written for a dynamic argument is the place of its own tail exactly when the
      encoder's head count is right, that is when no array holds arrays of more than one word. */
  lemma OffsetIff(ts: seq<Type>, vs: seq<Value>, i: nat)
    requires Arguments(ts, vs) && i < |ts| && Prefixed(ts[i])
    requires |Packed(ts, vs)| < INT64_LIMIT
    ensures var at := WORD * Inline(ts[..i]);
        && at + WORD <= |Packed(ts, vs)|
        && (Unsigned(Packed(ts, vs)[at..at + WORD]) == TailPlace(Pieces(ts, vs), i) <==> Flat(ts))
    ensures Sits(Encode(ts[i], vs[i]), TailPlace(Pieces(ts, vs), i), Packed(ts, vs))
  {
    OffsetWord(ts, vs, i);
    TailSits(Pieces(ts, vs), i, Counted(ts));
    FlatHead(ts, vs);
  }

  /** The offset written is the counted head plus the tails before. */
  lemma OffsetWord(ts: seq<Type>, vs: seq<Value>, i: nat)
    requires Arguments(ts, vs) && i < |ts| && Prefixed(ts[i])
    requires |Packed(ts, vs)| < INT64_LIMIT
    ensures var at := WORD * Inline(ts[..i]);
        && at + WORD <= |Packed(ts, vs)|
        && Unsigned(Packed(ts, vs)[at..at + WORD]) == Counted(ts) + |Tails(Pieces(ts, vs)[..i])|
  {
    var ps, n, data := Pieces(ts, vs), Counted(ts), Packed(ts, vs);
    var offset, at := n + |Tails(ps[..i])|, WORD * Inline(ts[..i]);
    HeadPlaces(ts, vs, i);
    OffsetSits(ps, i, n, offset, at, data);
    OffsetBound(ts, vs, i);
    WordAt(offset, at, data);
  }

  lemma OffsetSits(ps: seq<Piece>, i: nat, n: nat, offset: nat, at: nat, data: seq<byte>)
    requires i < |ps| && ps[i].dynamic && data == Layout(ps, n)
    requires offset == n + |Tails(ps[..i])| && at == HeadPlace(ps, i)
    ensures Sits(Bytes(offset, WORD), at, data)
  {
    HeadSits(ps, i, n);
  }

  lemma WordAt(n: nat, at: nat, data: seq<byte>)
    requires n <= |data| < INT64_LIMIT && Sits(Bytes(n, WORD), at, data)
    ensures at + WORD <= |data| && Unsigned(data[at..at + WORD]) == n
  {
    SmallWord(n, |data|);
  }

  lemma OffsetBound(ts: seq<Type>, vs: seq<Value>, i: nat)
    requires Arguments(ts, vs) && i <= |ts|
    ensures Counted(ts) + |Tails(Pieces(ts, vs)[..i])| <= |Packed(ts, vs)|
  {
    var ps := Pieces(ts, vs);
    TailsPrefix(ps, i);
    HeadLength(ps, 0, Counted(ts));
    FlatHead(ts, vs);
  }

  /** Every argument is read back from its own place. */
  lemma ArgumentBack(ts: seq<Type>, vs: seq<Value>, i: nat)
    requires Arguments(ts, vs) && i < |ts| && TypeOk(ts[i])
    requires Flat(ts) || AllStatic(ts)
    requires |Packed(ts, vs)| < INT64_LIMIT
    ensures Decode(WORD * Inline(ts[..i]), ts[i], Packed(ts, vs)) == Ok(Recovered(vs[i]))
  {
    var ps, n, data := Pieces(ts, vs), Counted(ts), Packed(ts, vs);
    HeadPlaces(ts, vs, i);
    HeadSits(ps, i, n);
    if Prefixed(ts[i]) {
      FlatHead(ts, vs);
      PieceBack(ts[i], vs[i], ps, i, n, data);
    } else {
      StaticBack(ts[i], vs[i], HeadPlace(ps, i), data);
    }
  }

  lemma PieceBack(t: Type, v: Value, ps: seq<Piece>, i: nat, n: nat, data: seq<byte>)
    requires Supported(t) && Typed(t, v) && TypeOk(t) && Prefixed(t)
    requires i < |ps| && ps[i] == Piece(true, Encode(t, v)) && n == |Head(ps, 0)| && data == Layout(ps, n)
    requires |data| < INT64_LIMIT
    ensures Decode(HeadPlace(ps, i), t, data) == Ok(Recovered(v))
  {
    var at, place := HeadPlace(ps, i), TailPlace(ps, i);
    OffsetSits(ps, i, n, place, at, data);
    TailSits(ps, i, n);
    DynamicBack(t, v, at, place, data);
  }

  /** Each argument decodes, at its own place, to the value listed for it. */
  ghost predicate Reads(ts: seq<Type>, data: seq<byte>, ws: seq<Value>)
    requires TypesOk(ts)
  {
    |ts| == |ws| && forall k :: 0 <= k < |ts| ==> ReadAt(ts, data, ws, k)
  }

  ghost predicate ReadAt(ts: seq<Type>, data: seq<byte>, ws: seq<Value>, k: nat)
    requires TypesOk(ts) && k < |ts| == |ws|
  {
    Decode(WORD * Inline(ts[..k]), ts[k], data) == Ok(ws[k])
  }

  lemma {:induction false} ReadsAll(ts: seq<Type>, data: seq<byte>, ws: seq<Value>, i: nat)
    requires TypesOk(ts) && Reads(ts, data, ws) && i <= |ts|
    ensures DecodeArgs(ts[i..], WORD * Inline(ts[..i]), data) == Ok(ws[i..])
    decreases |ts| - i
  {
    if i < |ts| {
      assert ReadAt(ts, data, ws, i);
      ReadsAll(ts, data, ws, i + 1);
      InlineNext(ts, i);
      ArgsStep(ts, i, WORD * Inline(ts[..i]), data, ws);
    } else {
      assert ws[i..] == [];
    }
  }

  lemma ArgumentsBack(ts: seq<Type>, vs: seq<Value>, data: seq<byte>, ws: seq<Value>)
    requires Arguments(ts, vs) && TypesOk(ts)
    requires Flat(ts) || AllStatic(ts)
    requires data == Packed(ts, vs) && |data| < INT64_LIMIT && ws == RecoveredAll(vs)
    ensures DecodeArgs(ts, 0, data) == Ok(ws)
  {
    forall k | 0 <= k < |ts|
      ensures ReadAt(ts, data, ws, k)
    {
      ArgumentBack(ts, vs, k);
      RecoveredAt(vs, k);
    }
    ReadsAll(ts, data, ws, 0);
    assert ts[0..] == ts && ws[0..] == ws;
  }

  lemma InlineNext(ts: seq<Type>, i: nat)
    requires i < |ts|
    ensures Inline(ts[..i + 1]) == Inline(ts[..i]) + WordCount(ts[i])
  {
    assert ts[..i + 1] == ts[..i] + [ts[i]];
    InlineSnoc(ts[..i], ts[i]);
  }

  lemma ArgsStep(ts: seq<Type>, i: nat, pos: nat, data: seq<byte>, ws: seq<Value>)
    requires TypesOk(ts) && i < |ts| == |ws|
    requires Decode(pos, ts[i], data) == Ok(ws[i])
    requires DecodeArgs(ts[i + 1..], pos + WORD * WordCount(ts[i]), data) == Ok(ws[i + 1..])
    ensures DecodeArgs(ts[i..], pos, data) == Ok(ws[i..])
  {
    assert ts[i..][0] == ts[i] && ts[i..][1..] == ts[i + 1..];
    assert ws[i..] == [ws[i]] + ws[i + 1..];
  }

  lemma SupportedOk(ts: seq<Type>)
    requires forall k :: 0 <= k < |ts| ==> Supported(ts[k])
    ensures TypesOk(ts)
  {
    forall k | 0 <= k < |ts|
      ensures TypeOk(ts[k])
    {
      if Static(ts[k]) {
        StaticOk(ts[k]);
      } else if ts[k].TSlice? {
        StaticOk(ts[k].elem);
      }
    }
  }

  /** Decoding an encoded argument list gives every argument back, big integers modulo 2^256; so it
      gives back the very arguments exactly when every big integer is an unsigned 256-bit one. */
  lemma RoundTrip(ts: seq<Type>, vs: seq<Value>)
    requires Arguments(ts, vs)
    requires Flat(ts) || AllStatic(ts)
    requires |Packed(ts, vs)| < INT64_LIMIT
    ensures AllCheck(ts, vs) && TypesOk(ts)
    ensures DecodeArgs(ts, 0, Packed(ts, vs)) == Ok(RecoveredAll(vs))
    ensures DecodeArgs(ts, 0, Packed(ts, vs)) == Ok(vs) <==> AllFit(vs)
  {
    SupportedOk(ts);
    ArgumentsBack(ts, vs, Packed(ts, vs), RecoveredAll(vs));
    RecoveredAllIff(vs);
    ArgumentsCheck(ts, vs, |ts|);
  }

  lemma {:induction false} ArgumentsCheck(ts: seq<Type>, vs: seq<Value>, i: nat)
    requires Arguments(ts, vs) && i <= |ts|
    ensures Checked(ts, vs, i)
  {
    if i > 0 {
      ArgumentsCheck(ts, vs, i - 1);
      TypedChecks(ts[i - 1], vs[i - 1]);
    }
  }

  lemma {:induction false} TypedChecks(t: Type, v: Value)
    requires Supported(t) && Typed(t, v)
    ensures Checks(t, v)
    decreases t, 0
  {
    if IsList(t) {
      AllTypedChecks(t.elem, v.items);
    }
  }

  lemma {:induction false} AllTypedChecks(elem: Type, items: seq<Value>)
    requires Static(elem) && AllTyped(elem, items)
    ensures ChecksAll(elem, items)
    decreases elem, |items| + 1
  {
    if items != [] {
      TypedChecks(elem, items[0]);
      AllTypedChecks(elem, items[1..]);
    }
  }

  /** With a nested array in front, the offset of a string points into the head region and decoding
      fails: bool[2][1] followed by an empty string. */
  lemma NestedArrayFails()
    ensures var ts, vs := NestedTypes(), NestedValues();
        && Arguments(ts, vs)
        && TypesOk(ts)
        && DecodeArgs(ts, 0, Packed(ts, vs)) == Err(Insufficient)
  {
    var ts, vs := NestedTypes(), NestedValues();
    var ps, data := Pieces(ts, vs), Packed(ts, vs);
    NestedTyped();
    SupportedOk(ts);
    NestedLayout();
    PointsAtItself(64, data);
    HeadSits(ps, 0, Counted(ts));
    StaticBack(ts[0], vs[0], 0, data);
    assert ts[1..] == [TString];
    assert DecodeArgs([TString], 64, data) == Err(Insufficient);
  }

  function NestedTypes(): seq<Type> {
    [TArray(1, TArray(2, TBool)), TString]
  }

  function NestedValues(): seq<Value> {
    [List([List([Bool(false), Bool(false)])]), Text([])]
  }

  lemma NestedTyped()
    ensures Arguments(NestedTypes(), NestedValues())
    ensures WordCount(NestedTypes()[0]) == 2
  {
    assert Typed(TArray(2, TBool), List([Bool(false), Bool(false)]));
    assert WordCount(TArray(2, TBool)) == 2;
  }

  lemma NestedLayout()
    ensures var data := Packed(NestedTypes(), NestedValues());
        |data| == 128 && Sits(Bytes(64, WORD), 64, data)
  {
    var ts, vs := NestedTypes(), NestedValues();
    NestedTyped();
    NestedCounts();
    var ps := Pieces(ts, vs);
    NestedTails(ps[0], ps[1].bytes);
    assert ps == [ps[0], Piece(true, ps[1].bytes)];
    LayoutSize(ts, vs);
    HeadPlaces(ts, vs, 1);
    HeadSits(ps, 1, 64);
  }

  lemma NestedCounts()
    ensures var ts := NestedTypes(); Counted(ts) == 64 && Inline(ts) == 3 && Inline(ts[..1]) == 2
    ensures |PackBytes([], 0)| == WORD
  {
    var ts := NestedTypes();
    assert ts[1..] == [TString] && ts[..1] == [ts[0]];
    assert WordCount(TArray(2, TBool)) == 2;
  }

  lemma NestedTails(a: Piece, s: seq<byte>)
    requires !a.dynamic
    ensures var ps := [a, Piece(true, s)]; Tails(ps) == s && Tails(ps[..1]) == []
  {
    var ps := [a, Piece(true, s)];
    assert ps[1..] == [ps[1]] && ps[..1] == [a];
    assert Tails([ps[1]]) == s + Tails([]);
  }

  /** A string whose offset word points at that very word is as long as the offset. */
  lemma PointsAtItself(at: nat, data: seq<byte>)
    requires at + WORD <= |data| < at + WORD + at < INT64_LIMIT
    requires Sits(Bytes(at, WORD), at, data)
    ensures Decode(at, TString, data) == Err(Insufficient)
  {
    SmallWord(at, |data|);
    ReadsItself(at, data);
  }

  lemma ReadsItself(at: nat, data: seq<byte>)
    requires at + WORD <= |data| < at + WORD + at < INT64_LIMIT && Unsigned(data[at..at + WORD]) == at
    ensures LengthPrefix(at, data) == Err(Insufficient)
  {
    var offsetEnd := at + WORD;
    assert data[offsetEnd - WORD..offsetEnd] == data[at..at + WORD];
  }

  lemma LayoutSize(ts: seq<Type>, vs: seq<Value>)
    requires Arguments(ts, vs)
    ensures |Packed(ts, vs)| == WORD * Inline(ts) + |Tails(Pieces(ts, vs))|
  {
    var ps := Pieces(ts, vs);
    HeadPlaces(ts, vs, |ts|);
    assert ts[..|ts|] == ts && ps[..|ps|] == ps;
    HeadLength(ps, 0, Counted(ts));
  }

  // ---------------------------------------------------------------- any data

  lemma IntegerInRange(unsigned: bool, bits: nat, word: seq<byte>)
    requires |word| == WORD
    ensures var v := ReadInteger(KindOf(unsigned, bits), word); InRange(v.kind, v.n) && Fits(v)
  {
    var kind := KindOf(unsigned, bits);
    if kind.Machine? {
      LowInRange(unsigned, kind.width, word[WORD - kind.width..]);
    } else {
      UnsignedBound(word);
    }
  }

  lemma LowInRange(unsigned: bool, width: nat, low: seq<byte>)
    requires |low| == width
    ensures InRange(Machine(unsigned, width), if unsigned then Unsigned(low) else Signed(low))
  {
    UnsignedBound(low);
  }

  /** Whatever data the decoder accepts, the value is one of the type, and fits it. */
  lemma {:induction false} DecodeTyped(index: nat, t: Type, data: seq<byte>)
    requires TypeOk(t) && Decode(index, t, data).Ok?
    ensures Typed(t, Decode(index, t, data).value) && Fits(Decode(index, t, data).value)
    decreases t, 0
  {
    if t.TNum? {
      IntegerInRange(t.unsigned, t.bits, data[index..index + WORD]);
    } else if t.TArray? {
      DecodeEachTyped(t.elem, data, index, t.length, WORD * WordCount(t.elem));
    } else if t.TSlice? {
      var at := LengthPrefix(index, data).value;
      assert Decode(index, t, data) == Contents(at.0, at.1, t, data);
      assert Contents(at.0, at.1, t, data) == DecodeList(t.elem, data, at.0, at.1, WORD);
      DecodeEachTyped(t.elem, data, at.0, at.1, WORD);
    }
  }

  lemma {:induction false} DecodeEachTyped(elem: Type, data: seq<byte>, start: nat, size: nat, step: nat)
    requires TypeOk(elem) && DecodeEach(elem, data, start, size, step).Ok?
    ensures AllTyped(elem, DecodeEach(elem, data, start, size, step).value)
    ensures AllFit(DecodeEach(elem, data, start, size, step).value)
    decreases elem, size + 1
  {
    if size > 0 {
      DecodeTyped(start, elem, data);
      DecodeEachTyped(elem, data, start + step, size - 1, step);
      var vs := DecodeEach(elem, data, start, size, step).value;
      assert vs[1..] == DecodeEach(elem, data, start + step, size - 1, step).value;
    }
  }

  lemma {:induction false} DecodeArgsTyped(ts: seq<Type>, pos: nat, data: seq<byte>)
    requires TypesOk(ts) && DecodeArgs(ts, pos, data).Ok?
    requires forall k :: 0 <= k < |ts| ==> Supported(ts[k])
    ensures Arguments(ts, DecodeArgs(ts, pos, data).value) && AllFit(DecodeArgs(ts, pos, data).value)
  {
    if ts != [] {
      var next := pos + WORD * WordCount(ts[0]);
      DecodeTyped(pos, ts[0], data);
      DecodeArgsTyped(ts[1..], next, data);
      var vs, rest := DecodeArgs(ts, pos, data).value, DecodeArgs(ts[1..], next, data).value;
      assert vs == [Decode(pos, ts[0], data).value] + rest && vs[1..] == rest;
      forall k | 0 <= k < |ts|
        ensures Supported(ts[k]) && Typed(ts[k], vs[k])
      {
        if k > 0 {
          assert ts[k] == ts[1..][k - 1] && vs[k] == rest[k - 1];
        }
      }
    }
  }

  /** Values decoded from any data survive encoding and decoding unchanged. */
  lemma DecodedIsStable(ts: seq<Type>, data: seq<byte>)
    requires (forall k :: 0 <= k < |ts| ==> Supported(ts[k])) && Flat(ts)
    requires TypesOk(ts) && DecodeArgs(ts, 0, data).Ok?
    requires |DecodeArgs(ts, 0, data).value| == |ts| ==> |Packed(ts, DecodeArgs(ts, 0, data).value)| < INT64_LIMIT
    ensures var vs := DecodeArgs(ts, 0, data).value;
        Arguments(ts, vs) && DecodeArgs(ts, 0, Packed(ts, vs)) == Ok(vs)
  {
    DecodeArgsTyped(ts, 0, data);
    RoundTrip(ts, DecodeArgs(ts, 0, data).value);
  }
}
