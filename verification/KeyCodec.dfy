/**
Keys of the database partitions: null-terminated strings, big-endian cursors,
static strings, and concatenations of these. Bytes are characters below 256.
*/
module KeyCodec {
  import Lex

  datatype Result<+T> = Ok(value: T) | Err(error: Error)

  datatype Error =
    | StringContainedNull
    | UnterminatedString
    | NotUtf8
    | BadAtriumStringType
    | DecodeNotEnoughBytes
    | DecodeMissingSuffix
    | WrongStaticPrefix
    | DecodeTooManyBytes(count: nat)
    | BadRangeBound

  /** The types a key is made of, and their values. */
  datatype Shape = Text | Name | Number | Static(text: string) | Empty | Concat(prefix: Shape, suffix: Shape)
  datatype Value = Str(s: string) | Num(n: nat) | Unit | Pair(first: Value, second: Value)

  predicate IsBytes(s: string) {
    forall i :: 0 <= i < |s| ==> s[i] < 256 as char
  }

  const NUL: char := 0 as char

  /** The checks on decoded strings: UTF-8 on every one, NSID syntax on collection names. */
  datatype Syntax = Syntax(utf8: string -> bool, nsid: string -> bool)

  /** A string's value is its bytes. */
  predicate Fits(shape: Shape, v: Value, syntax: Syntax) {
    match shape
    case Text => v.Str? && IsBytes(v.s) && syntax.utf8(v.s)
    case Name => v.Str? && IsBytes(v.s) && syntax.utf8(v.s) && syntax.nsid(v.s)
    case Number => v.Num? && v.n < 0x1_0000_0000_0000_0000
    case Static(text) => v.Unit? && IsBytes(text)
    case Empty => v.Unit?
    case Concat(p, s) => v.Pair? && Fits(p, v.first, syntax) && Fits(s, v.second, syntax)
  }

  /** Static texts are strings of the program, so UTF-8. */
  predicate StaticsOk(shape: Shape, syntax: Syntax) {
    match shape
    case Static(text) => syntax.utf8(text)
    case Concat(p, s) => StaticsOk(p, syntax) && StaticsOk(s, syntax)
    case _ => true
  }

  /* ---- encoding ---- */

  function EncodeText(s: string): Result<string> {
    if NUL in s then Err(StringContainedNull) else Ok(s + [NUL])
  }

  /** The low `k` bytes, most significant first. */
  function BigEndian(n: nat, k: nat): (r: string)
    ensures |r| == k && IsBytes(r)
  {
    if k == 0 then [] else BigEndian(n / 256, k - 1) + [(n % 256) as char]
  }

  function FromBigEndian(s: string): nat {
    if s == [] then 0 else FromBigEndian(s[..|s| - 1]) * 256 + s[|s| - 1] as int
  }

  function Append(x: Result<string>, y: Result<string>): Result<string> {
    if x.Err? then x else if y.Err? then y else Ok(x.value + y.value)
  }

  function Encode(shape: Shape, v: Value): Result<string> {
    match shape
    case Text => if v.Str? then EncodeText(v.s) else Ok([])
    case Name => if v.Str? then EncodeText(v.s) else Ok([])
    case Number => if v.Num? then Ok(BigEndian(v.n, 8)) else Ok([])
    case Static(text) => EncodeText(text)
    case Empty => Ok([])
    case Concat(p, s) => if v.Pair? then Append(Encode(p, v.first), Encode(s, v.second)) else Ok([])
  }

  /* ---- decoding ---- */

  function FindNull(bytes: string): (i: nat)
    ensures i <= |bytes|
    ensures forall j :: 0 <= j < i ==> bytes[j] != NUL
    ensures i < |bytes| ==> bytes[i] == NUL
  {
    if bytes == [] || bytes[0] == NUL then 0 else 1 + FindNull(bytes[1..])
  }

  function DecodeText(bytes: string, syntax: Syntax): Result<(string, nat)> {
    var i := FindNull(bytes);
    if i == |bytes| then Err(UnterminatedString)
    else if !syntax.utf8(bytes[..i]) then Err(NotUtf8)
    else Ok((bytes[..i], i + 1))
  }

  /** What a concatenation makes of its decoded prefix, and of the suffix if anything is left for it. */
  function Join(x: Result<(Value, nat)>, left: bool, y: Result<(Value, nat)>): Result<(Value, nat)> {
    if x.Err? then Err(x.error)
    else if !left then Err(DecodeMissingSuffix)
    else if y.Err? then Err(y.error)
    else Ok((Pair(x.value.0, y.value.0), x.value.1 + y.value.1))
  }

  /** The value and how many bytes it took; never more than there are. */
  function Decode(shape: Shape, bytes: string, syntax: Syntax): (r: Result<(Value, nat)>)
    ensures r.Ok? ==> r.value.1 <= |bytes|
  {
    match shape
    case Text =>
      var t := DecodeText(bytes, syntax);
      if t.Err? then Err(t.error) else Ok((Str(t.value.0), t.value.1))
    case Name =>
      var t := DecodeText(bytes, syntax);
      if t.Err? then Err(t.error)
      else if !syntax.nsid(t.value.0) then Err(BadAtriumStringType)
      else Ok((Str(t.value.0), t.value.1))
    case Number =>
      if |bytes| < 8 then Err(DecodeNotEnoughBytes) else Ok((Num(FromBigEndian(bytes[..8])), 8))
    case Static(text) =>
      var t := DecodeText(bytes, syntax);
      if t.Err? then Err(t.error)
      else if t.value.0 != text then Err(WrongStaticPrefix)
      else Ok((Unit, t.value.1))
    case Empty => Ok((Unit, 0))
    case Concat(p, s) =>
      var x := Decode(p, bytes, syntax);
      if x.Err? then x
      else
        var left := bytes[x.value.1..];
        Join(x, left != [], Decode(s, left, syntax))
  }

  function DbComplete(shape: Shape, bytes: string, syntax: Syntax): Result<Value> {
    var r := Decode(shape, bytes, syntax);
    if r.Err? then Err(r.error)
    else if r.value.1 < |bytes| then Err(DecodeTooManyBytes(|bytes| - r.value.1))
    else Ok(r.value.0)
  }

  /** The scan for the terminator. */
  method StringFromDbBytes(bytes: string, syntax: Syntax) returns (r: Result<(string, nat)>)
    ensures r == DecodeText(bytes, syntax)
  {
    for i := 0 to |bytes|
      invariant forall j :: 0 <= j < i ==> bytes[j] != NUL
    {
      if bytes[i] == NUL {
        return if syntax.utf8(bytes[..i]) then Ok((bytes[..i], i + 1)) else Err(NotUtf8);
      }
    }
    r := Err(UnterminatedString);
  }

  /* ---- round trips ---- */

  function Pow256(k: nat): nat {
    if k == 0 then 1 else 256 * Pow256(k - 1)
  }

  lemma Pow8()
    ensures Pow256(8) == 0x1_0000_0000_0000_0000
  {
    assert Pow256(4) == 0x1_0000_0000;
    assert Pow256(8) == 256 * Pow256(7);
  }

  lemma {:induction false} NumberBack(n: nat, k: nat)
    requires n < Pow256(k)
    ensures FromBigEndian(BigEndian(n, k)) == n
  {
    if k > 0 {
      NumberBack(n / 256, k - 1);
      assert BigEndian(n, k)[..k - 1] == BigEndian(n / 256, k - 1);
    }
  }

  lemma {:induction false} BytesBack(s: string)
    requires IsBytes(s)
    ensures FromBigEndian(s) < Pow256(|s|) && BigEndian(FromBigEndian(s), |s|) == s
  {
    if s != [] {
      var init, last := s[..|s| - 1], s[|s| - 1];
      BytesBack(init);
      assert FromBigEndian(s) == FromBigEndian(init) * 256 + last as int;
      assert s == init + [last];
    }
  }

  lemma TextBack(s: string, rest: string, syntax: Syntax)
    requires NUL !in s && syntax.utf8(s)
    ensures DecodeText(s + [NUL] + rest, syntax) == Ok((s, |s| + 1))
  {
    var bytes := s + [NUL] + rest;
    var i := FindNull(bytes);
    assert bytes[|s|] == NUL;
    assert forall j :: 0 <= j < |s| ==> bytes[j] == s[j];
    assert i == |s|;
    assert bytes[..|s|] == s;
  }

  /** The encoding takes no bytes. */
  predicate Blank(shape: Shape) {
    shape.Empty? || (shape.Concat? && Blank(shape.prefix) && Blank(shape.suffix))
  }

  /** Some concatenation on the right spine has a suffix that takes no bytes. */
  predicate EndsBlank(shape: Shape) {
    shape.Concat? && (Blank(shape.suffix) || EndsBlank(shape.suffix))
  }

  lemma {:induction false} BlankIsEmpty(shape: Shape, v: Value, syntax: Syntax)
    requires Fits(shape, v, syntax) && Encode(shape, v).Ok?
    ensures Encode(shape, v).value == [] <==> Blank(shape)
  {
    if shape.Concat? {
      BlankIsEmpty(shape.prefix, v.first, syntax);
      BlankIsEmpty(shape.suffix, v.second, syntax);
    }
  }

  /**
   * Decoding an encoded key followed by any bytes gives back the value and its exact length,
   * except when nothing follows and some suffix takes no bytes.
   */
  lemma {:induction false} RoundTrip(shape: Shape, v: Value, rest: string, syntax: Syntax)
    requires Fits(shape, v, syntax) && StaticsOk(shape, syntax) && Encode(shape, v).Ok?
    ensures Decode(shape, Encode(shape, v).value + rest, syntax) ==
            if rest == [] && EndsBlank(shape) then Err(DecodeMissingSuffix) else Ok((v, |Encode(shape, v).value|))
    decreases shape, 1
  {
    if shape.Concat? {
      ConcatRoundTrip(shape.prefix, shape.suffix, v, rest, syntax);
    } else {
      LeafBack(shape, v, rest, syntax);
    }
  }

  lemma {:induction false} ConcatRoundTrip(p: Shape, s: Shape, v: Value, rest: string, syntax: Syntax)
    requires Fits(Concat(p, s), v, syntax) && StaticsOk(Concat(p, s), syntax) && Encode(Concat(p, s), v).Ok?
    ensures Decode(Concat(p, s), Encode(Concat(p, s), v).value + rest, syntax) ==
            if rest == [] && EndsBlank(Concat(p, s))
            then Err(DecodeMissingSuffix)
            else Ok((v, |Encode(Concat(p, s), v).value|))
    decreases Concat(p, s), 0
  {
    var a, b := Encode(p, v.first).value, Encode(s, v.second).value;
    EncodedConcat(p, s, v, a, b, rest);
    BlankIsEmpty(s, v.second, syntax);
    RoundTrip(p, v.first, b + rest, syntax);
    RoundTrip(s, v.second, rest, syntax);
    DecodeConcat(p, s, a, b + rest, v.first, syntax);
    JoinBack(p, s, v, Decode(p, a + (b + rest), syntax), Decode(s, b + rest, syntax), a, b, rest);
  }

  lemma EncodedConcat(p: Shape, s: Shape, v: Value, a: string, b: string, rest: string)
    requires v.Pair? && Encode(p, v.first) == Ok(a) && Encode(s, v.second) == Ok(b)
    ensures Encode(Concat(p, s), v) == Ok(a + b) && (a + b) + rest == a + (b + rest)
  {
  }

  lemma LeafBack(shape: Shape, v: Value, rest: string, syntax: Syntax)
    requires Fits(shape, v, syntax) && StaticsOk(shape, syntax) && Encode(shape, v).Ok? && !shape.Concat?
    ensures Decode(shape, Encode(shape, v).value + rest, syntax) == Ok((v, |Encode(shape, v).value|))
  {
    match shape
    case Text => TextBack(v.s, rest, syntax);
    case Name => TextBack(v.s, rest, syntax);
    case Number => CursorBack(v.n, rest, syntax);
    case Static(text) => TextBack(text, rest, syntax);
    case Empty =>
  }

  lemma CursorBack(n: nat, rest: string, syntax: Syntax)
    requires n < 0x1_0000_0000_0000_0000
    ensures Decode(Number, BigEndian(n, 8) + rest, syntax) == Ok((Num(n), 8))
  {
    Pow8();
    NumberBack(n, 8);
    assert (BigEndian(n, 8) + rest)[..8] == BigEndian(n, 8);
  }

  lemma DecodeConcat(p: Shape, s: Shape, a: string, tail: string, v: Value, syntax: Syntax)
    requires Decode(p, a + tail, syntax).Ok? ==> Decode(p, a + tail, syntax).value == (v, |a|)
    ensures Decode(Concat(p, s), a + tail, syntax) ==
              Join(Decode(p, a + tail, syntax), tail != [], Decode(s, tail, syntax))
  {
    var bytes := a + tail;
    assert bytes[|a|..] == tail;
    var x := Decode(p, bytes, syntax);
    if x.Ok? {
      assert bytes[x.value.1..] == tail;
    }
  }

  lemma JoinBack(p: Shape, s: Shape, v: Value, x: Result<(Value, nat)>, y: Result<(Value, nat)>, a: string, b: string,
                 rest: string)
    requires v.Pair? && (b == [] <==> Blank(s))
    requires x == if b + rest == [] && EndsBlank(p) then Err(DecodeMissingSuffix) else Ok((v.first, |a|))
    requires y == if rest == [] && EndsBlank(s) then Err(DecodeMissingSuffix) else Ok((v.second, |b|))
    ensures Join(x, b + rest != [], y) ==
            if rest == [] && EndsBlank(Concat(p, s)) then Err(DecodeMissingSuffix) else Ok((v, |a + b|))
  {
  }

  /** What decodes is the encoding of what it decodes to: no two byte strings mean the same key. */
  lemma {:induction false} DecodedIsEncoded(shape: Shape, bytes: string, syntax: Syntax)
    requires IsBytes(bytes) && Decode(shape, bytes, syntax).Ok?
    ensures var (v, n) := Decode(shape, bytes, syntax).value;
            Fits(shape, v, syntax) && Encode(shape, v) == Ok(bytes[..n])
  {
    if shape.Concat? {
      var (a, n) := Decode(shape.prefix, bytes, syntax).value;
      DecodedIsEncoded(shape.prefix, bytes, syntax);
      var (b, m) := Decode(shape.suffix, bytes[n..], syntax).value;
      DecodedIsEncoded(shape.suffix, bytes[n..], syntax);
      ConcatDecoded(shape.prefix, shape.suffix, a, b, bytes, n, m);
      assert shape == Concat(shape.prefix, shape.suffix);
      assert Decode(shape, bytes, syntax).value == (Pair(a, b), n + m);
    } else {
      LeafDecoded(shape, bytes, syntax);
    }
  }

  lemma LeafDecoded(shape: Shape, bytes: string, syntax: Syntax)
    requires IsBytes(bytes) && Decode(shape, bytes, syntax).Ok? && !shape.Concat?
    ensures var (v, n) := Decode(shape, bytes, syntax).value;
            Fits(shape, v, syntax) && Encode(shape, v) == Ok(bytes[..n])
  {
    match shape
    case Text => TextDecoded(bytes, syntax);
    case Name => TextDecoded(bytes, syntax);
    case Number => NumberDecoded(bytes[..8]);
    case Static(text) => TextDecoded(bytes, syntax);
    case Empty =>
  }

  lemma NumberDecoded(bytes: string)
    requires IsBytes(bytes) && |bytes| == 8
    ensures FromBigEndian(bytes) < 0x1_0000_0000_0000_0000 && BigEndian(FromBigEndian(bytes), 8) == bytes
  {
    Pow8();
    BytesBack(bytes);
  }

  lemma ConcatDecoded(p: Shape, s: Shape, a: Value, b: Value, bytes: string, n: nat, m: nat)
    requires n + m <= |bytes| && Encode(p, a) == Ok(bytes[..n]) && Encode(s, b) == Ok(bytes[n..][..m])
    ensures Encode(Concat(p, s), Pair(a, b)) == Ok(bytes[..n + m])
  {
    assert bytes[..n] + bytes[n..][..m] == bytes[..n + m];
  }

  lemma TextDecoded(bytes: string, syntax: Syntax)
    requires IsBytes(bytes) && DecodeText(bytes, syntax).Ok?
    ensures var (s, n) := DecodeText(bytes, syntax).value;
            IsBytes(s) && syntax.utf8(s) && EncodeText(s) == Ok(bytes[..n])
  {
    var i := FindNull(bytes);
    assert bytes[..i + 1] == bytes[..i] + [NUL];
  }

  /** A whole key is read back exactly when it is the encoding. */
  lemma CompleteIffEncoded(shape: Shape, bytes: string, v: Value, syntax: Syntax)
    requires IsBytes(bytes) && StaticsOk(shape, syntax) && !EndsBlank(shape)
    ensures DbComplete(shape, bytes, syntax) == Ok(v) <==> Fits(shape, v, syntax) && Encode(shape, v) == Ok(bytes)
  {
    if DbComplete(shape, bytes, syntax) == Ok(v) {
      DecodedIsEncoded(shape, bytes, syntax);
      assert bytes[..|bytes|] == bytes;
    }
    if Fits(shape, v, syntax) && Encode(shape, v) == Ok(bytes) {
      RoundTrip(shape, v, [], syntax);
      assert bytes + [] == bytes;
    }
  }

  /* ---- order ---- */

  /** The order of keys: part by part. */
  ghost predicate Before(shape: Shape, a: Value, b: Value) {
    match shape
    case Text => a.Str? && b.Str? && Lex.Less(a.s, b.s)
    case Name => a.Str? && b.Str? && Lex.Less(a.s, b.s)
    case Number => a.Num? && b.Num? && a.n < b.n
    case Concat(p, s) =>
      a.Pair? && b.Pair? && (Before(p, a.first, b.first) || (a.first == b.first && Before(s, a.second, b.second)))
    case _ => false
  }

  lemma {:induction false} TextOrder(s: string, t: string, x: string, y: string)
    requires NUL !in s && NUL !in t
    ensures Lex.Less(s + [NUL] + x, t + [NUL] + y) <==> Lex.Less(s, t) || (s == t && Lex.Less(x, y))
  {
    var a, b := s + [NUL] + x, t + [NUL] + y;
    if s != [] && t != [] {
      assert a[1..] == s[1..] + [NUL] + x && b[1..] == t[1..] + [NUL] + y;
      assert s == [s[0]] + s[1..] && t == [t[0]] + t[1..];
      TextOrder(s[1..], t[1..], x, y);
    } else if s == [] && t == [] {
      assert a[1..] == x && b[1..] == y;
    } else if s == [] {
      assert a[0] == NUL && b[0] == t[0] && t[0] in t;
    } else {
      assert b[0] == NUL && a[0] == s[0] && s[0] in s;
    }
  }

  lemma {:induction false} NumberOrder(m: nat, n: nat, k: nat, x: string, y: string)
    requires m < Pow256(k) && n < Pow256(k)
    ensures Lex.Less(BigEndian(m, k) + x, BigEndian(n, k) + y) <==> m < n || (m == n && Lex.Less(x, y))
  {
    if k == 0 {
      assert BigEndian(m, 0) + x == x && BigEndian(n, 0) + y == y;
    } else {
      var x', y' := [(m % 256) as char] + x, [(n % 256) as char] + y;
      assert BigEndian(m, k) + x == BigEndian(m / 256, k - 1) + x';
      assert BigEndian(n, k) + y == BigEndian(n / 256, k - 1) + y';
      NumberOrder(m / 256, n / 256, k - 1, x', y');
      assert x'[1..] == x && y'[1..] == y;
    }
  }

  /** Byte order of encoded keys, whatever follows them, is the order of their parts. */
  lemma {:induction false} KeyOrder(shape: Shape, a: Value, b: Value, x: string, y: string, syntax: Syntax)
    requires Fits(shape, a, syntax) && Fits(shape, b, syntax) && Encode(shape, a).Ok? && Encode(shape, b).Ok?
    ensures Lex.Less(Encode(shape, a).value + x, Encode(shape, b).value + y) <==>
            Before(shape, a, b) || (a == b && Lex.Less(x, y))
  {
    var p, q := Encode(shape, a).value, Encode(shape, b).value;
    match shape
    case Text => TextOrder(a.s, b.s, x, y);
    case Name => TextOrder(a.s, b.s, x, y);
    case Number =>
      Pow8();
      NumberOrder(a.n, b.n, 8, x, y);
    case Static(text) => Lex.CommonPrefix(p, x, y);
    case Empty => Lex.CommonPrefix(p, x, y);
    case Concat(l, r) =>
      var p1, p2 := Encode(l, a.first).value, Encode(r, a.second).value;
      var q1, q2 := Encode(l, b.first).value, Encode(r, b.second).value;
      assert p + x == p1 + (p2 + x) && q + y == q1 + (q2 + y);
      KeyOrder(l, a.first, b.first, p2 + x, q2 + y, syntax);
      KeyOrder(r, a.second, b.second, x, y, syntax);
  }

  /* ---- ranges ---- */

  /** The first byte string after everything with this prefix, if there is one. */
  function PrefixEnd(p: string): Result<string> {
    if p == [] then Err(BadRangeBound)
    else
      var n := |p| - 1;
      if p[n] >= 255 as char then PrefixEnd(p[..n]) else Ok(p[..n] + [(p[n] as int + 1) as char])
  }

  predicate InRange(b: string, low: string, high: string) {
    !Lex.Less(b, low) && Lex.Less(b, high)
  }

  /** `to_db_bytes()..range_end()` of a concatenated key. */
  function RangeToPrefixEnd(shape: Shape, v: Value): Result<(string, string)>
    requires shape.Concat? && v.Pair?
  {
    var low := Encode(shape, v);
    if low.Err? then Err(low.error)
    else
      var p := Encode(shape.prefix, v.first);
      if p.Err? then Err(p.error)
      else
        var high := PrefixEnd(p.value);
        if high.Err? then Err(high.error) else Ok((low.value, high.value))
  }

  /** Nothing lies between the strings with a prefix and its end, and none of them reaches it. */
  lemma {:induction false} PrefixEndBounds(p: string, b: string)
    requires IsBytes(p) && IsBytes(b) && PrefixEnd(p).Ok?
    ensures Lex.Less(b, PrefixEnd(p).value) <==> p <= b || Lex.Less(b, p)
  {
    var n := |p| - 1;
    if p[n] >= 255 as char {
      PrefixEndBounds(p[..n], b);
      TopByte(p[..n], b);
      assert p == p[..n] + [255 as char];
    } else {
      NextByte(p[..n], p[n], b);
      assert p == p[..n] + [p[n]];
    }
  }

  /** Bytes below `q` extended by 255 or having that as prefix: exactly those below or having `q`. */
  lemma {:induction false} TopByte(q: string, b: string)
    requires IsBytes(b)
    ensures q <= b || Lex.Less(b, q) <==> q + [255 as char] <= b || Lex.Less(b, q + [255 as char])
  {
    var p := q + [255 as char];
    if q == [] {
      assert q <= b;
      if b != [] {
        if b[0] == 255 as char {
          assert p <= b;
        }
      }
    } else if b != [] {
      assert p[1..] == q[1..] + [255 as char];
      HeadPrefix(q, b);
      HeadPrefix(p, b);
      TopByte(q[1..], b[1..]);
    }
  }

  lemma {:induction false} NextByte(q: string, c: char, b: string)
    requires c < 255 as char
    ensures Lex.Less(b, q + [(c as int + 1) as char]) <==> q + [c] <= b || Lex.Less(b, q + [c])
  {
    var p, e := q + [c], q + [(c as int + 1) as char];
    if b != [] {
      HeadPrefix(p, b);
      if q != [] {
        assert p[1..] == q[1..] + [c] && e[1..] == q[1..] + [(c as int + 1) as char];
        NextByte(q[1..], c, b[1..]);
      } else {
        assert p[1..] == [] && e[1..] == [];
      }
    }
  }

  lemma HeadPrefix(p: string, b: string)
    requires p != [] && b != []
    ensures p <= b <==> p[0] == b[0] && p[1..] <= b[1..]
  {
    if p[0] == b[0] && p[1..] <= b[1..] {
      assert p == [p[0]] + p[1..];
      assert b == [b[0]] + b[1..];
    }
  }

  lemma {:induction false} EncodedIsBytes(shape: Shape, v: Value, syntax: Syntax)
    requires Fits(shape, v, syntax) && Encode(shape, v).Ok?
    ensures IsBytes(Encode(shape, v).value)
  {
    if shape.Concat? {
      EncodedIsBytes(shape.prefix, v.first, syntax);
      EncodedIsBytes(shape.suffix, v.second, syntax);
    }
  }

  /** Two encodings that are both prefixes of one string are of the same value. */
  lemma {:induction false} SelfDelimiting(shape: Shape, a: Value, b: Value, x: string, y: string, syntax: Syntax)
    requires Fits(shape, a, syntax) && Fits(shape, b, syntax) && Encode(shape, a).Ok? && Encode(shape, b).Ok?
    requires Encode(shape, a).value + x == Encode(shape, b).value + y
    ensures a == b
  {
    var z := Encode(shape, a).value + x;
    Lex.Irreflexive(z);
    KeyOrder(shape, a, b, x, y, syntax);
    KeyOrder(shape, b, a, y, x, syntax);
    BeforeTotal(shape, a, b, syntax);
  }

  lemma {:induction false} BeforeTotal(shape: Shape, a: Value, b: Value, syntax: Syntax)
    requires Fits(shape, a, syntax) && Fits(shape, b, syntax)
    ensures Before(shape, a, b) || a == b || Before(shape, b, a)
  {
    match shape
    case Text => Lex.Total(a.s, b.s);
    case Name => Lex.Total(a.s, b.s);
    case Concat(p, s) =>
      BeforeTotal(p, a.first, b.first, syntax);
      BeforeTotal(s, a.second, b.second, syntax);
    case _ =>
  }

  /**
   * A range from a key to the end of its prefix holds exactly the keys with that prefix
   * whose suffix is not before the given one, whatever follows them.
   */
  lemma RangeHoldsExactly(shape: Shape, from: Value, key: Value, rest: string, syntax: Syntax)
    requires shape.Concat? && Fits(shape, from, syntax) && Fits(shape, key, syntax)
    requires Encode(shape, key).Ok? && RangeToPrefixEnd(shape, from).Ok? && IsBytes(rest)
    ensures var (low, high) := RangeToPrefixEnd(shape, from).value;
            InRange(Encode(shape, key).value + rest, low, high) <==>
            key.first == from.first && !Before(shape.suffix, key.second, from.second)
  {
    RangeIs(shape, from);
    KeyAtLeast(shape, key, from, rest, syntax);
    KeyBelowEnd(shape, from, key, rest, syntax);
    BeforeIrreflexive(shape.prefix, from.first);
  }

  lemma RangeIs(shape: Shape, from: Value)
    requires shape.Concat? && from.Pair? && RangeToPrefixEnd(shape, from).Ok?
    ensures Encode(shape, from).Ok? && Encode(shape.prefix, from.first).Ok?
    ensures PrefixEnd(Encode(shape.prefix, from.first).value).Ok?
    ensures RangeToPrefixEnd(shape, from).value ==
              (Encode(shape, from).value, PrefixEnd(Encode(shape.prefix, from.first).value).value)
  {
  }

  lemma {:induction false} BeforeIrreflexive(shape: Shape, v: Value)
    ensures !Before(shape, v, v)
  {
    match shape
    case Text =>
      if v.Str? {
        Lex.Irreflexive(v.s);
      }
    case Name =>
      if v.Str? {
        Lex.Irreflexive(v.s);
      }
    case Concat(p, s) =>
      if v.Pair? {
        BeforeIrreflexive(p, v.first);
        BeforeIrreflexive(s, v.second);
      }
    case _ =>
  }

  lemma KeyBelowEnd(shape: Shape, from: Value, key: Value, rest: string, syntax: Syntax)
    requires shape.Concat? && Fits(shape, from, syntax) && Fits(shape, key, syntax)
    requires Encode(shape, key).Ok? && RangeToPrefixEnd(shape, from).Ok? && IsBytes(rest)
    ensures Lex.Less(Encode(shape, key).value + rest, RangeToPrefixEnd(shape, from).value.1) <==>
            key.first == from.first || Before(shape.prefix, key.first, from.first)
  {
    RangeIs(shape, from);
    EncodedIsBytes(shape.prefix, from.first, syntax);
    EncodedIsBytes(shape, key, syntax);
    PrefixEndBounds(Encode(shape.prefix, from.first).value, Encode(shape, key).value + rest);
    KeyHasPrefix(shape.prefix, shape.suffix, from.first, key, rest, syntax);
  }

  lemma KeyAtLeast(shape: Shape, key: Value, from: Value, rest: string, syntax: Syntax)
    requires Fits(shape, key, syntax) && Fits(shape, from, syntax) && Encode(shape, key).Ok? && Encode(shape, from).Ok?
    ensures Lex.Less(Encode(shape, key).value + rest, Encode(shape, from).value) <==> Before(shape, key, from)
  {
    KeyOrder(shape, key, from, rest, [], syntax);
    assert Encode(shape, from).value + [] == Encode(shape, from).value;
  }

  /** Whether a key has the encoded prefix, or comes before it. */
  lemma KeyHasPrefix(p: Shape, s: Shape, from: Value, key: Value, rest: string, syntax: Syntax)
    requires key.Pair? && Fits(p, from, syntax) && Fits(p, key.first, syntax)
    requires Encode(p, from).Ok? && Encode(Concat(p, s), key).Ok?
    ensures Encode(p, from).value <= Encode(Concat(p, s), key).value + rest <==> key.first == from
    ensures Lex.Less(Encode(Concat(p, s), key).value + rest, Encode(p, from).value) <==> Before(p, key.first, from)
  {
    var mine, its, more := Encode(p, from).value, Encode(p, key.first).value, Encode(s, key.second).value + rest;
    var bytes := Encode(Concat(p, s), key).value + rest;
    assert bytes == its + more;
    if mine <= bytes {
      assert mine + bytes[|mine|..] == its + more;
      SelfDelimiting(p, from, key.first, bytes[|mine|..], more, syntax);
    }
    KeyAtLeast(p, key.first, from, more, syntax);
  }

  /* ---- the live-count and feed keys ---- */

  const LIVE_CURSOR: Shape := Concat(Static("live_counts"), Number)
  const LIVE_COUNTS: Shape := Concat(LIVE_CURSOR, Name)
  const FEED: Shape := Concat(Name, Number)

  function LiveKey(cursor: nat, nsid: string): Value {
    Pair(Pair(Unit, Num(cursor)), Str(nsid))
  }

  predicate IsNsid(nsid: string, syntax: Syntax) {
    IsBytes(nsid) && NUL !in nsid && syntax.utf8(nsid) && syntax.nsid(nsid)
  }

  predicate IsCursor(cursor: nat) {
    cursor < 0x1_0000_0000_0000_0000
  }

  function RangeFromCursor(cursor: nat): Result<(string, string)> {
    RangeToPrefixEnd(LIVE_CURSOR, Pair(Unit, Num(cursor)))
  }

  lemma LiveKeyFits(cursor: nat, nsid: string, syntax: Syntax)
    requires IsCursor(cursor) && IsNsid(nsid, syntax)
    ensures Fits(LIVE_COUNTS, LiveKey(cursor, nsid), syntax) && Fits(LIVE_CURSOR, Pair(Unit, Num(cursor)), syntax)
    ensures Encode(LIVE_COUNTS, LiveKey(cursor, nsid)).Ok?
    ensures Encode(LIVE_COUNTS, LiveKey(cursor, nsid)).value ==
              Encode(LIVE_CURSOR, Pair(Unit, Num(cursor))).value + nsid + [NUL]
  {
    assert Encode(Static("live_counts"), Unit) == Ok("live_counts" + [NUL]);
    assert Encode(LIVE_CURSOR, Pair(Unit, Num(cursor))).Ok?;
    var p := Encode(LIVE_CURSOR, Pair(Unit, Num(cursor))).value;
    assert p + (nsid + [NUL]) == p + nsid + [NUL];
  }

  /** A stored live-count key is read back exactly when it is the encoding of a cursor and a valid collection name. */
  lemma LiveKeyComplete(bytes: string, cursor: nat, nsid: string, syntax: Syntax)
    requires IsBytes(bytes) && syntax.utf8("live_counts")
    ensures DbComplete(LIVE_COUNTS, bytes, syntax) == Ok(LiveKey(cursor, nsid)) <==>
            IsCursor(cursor) && IsNsid(nsid, syntax) && Encode(LIVE_COUNTS, LiveKey(cursor, nsid)) == Ok(bytes)
  {
    CompleteIffEncoded(LIVE_COUNTS, bytes, LiveKey(cursor, nsid), syntax);
    LiveKeyShape(cursor, nsid, syntax);
  }

  lemma LiveKeyShape(cursor: nat, nsid: string, syntax: Syntax)
    ensures Fits(LIVE_COUNTS, LiveKey(cursor, nsid), syntax) && Encode(LIVE_COUNTS, LiveKey(cursor, nsid)).Ok? <==>
            IsCursor(cursor) && IsNsid(nsid, syntax)
    ensures !EndsBlank(LIVE_COUNTS)
  {
    assert Encode(Static("live_counts"), Unit) == Ok("live_counts" + [NUL]);
    assert Encode(LIVE_CURSOR, Pair(Unit, Num(cursor))).Ok?;
    assert Fits(LIVE_CURSOR, Pair(Unit, Num(cursor)), syntax) <==> IsCursor(cursor);
    assert Encode(Name, Str(nsid)).Ok? <==> NUL !in nsid;
  }

  /** Byte order of live-count keys is the order of (cursor, NSID). */
  lemma LiveKeyOrder(c: nat, m: string, d: nat, n: string, syntax: Syntax)
    requires IsCursor(c) && IsCursor(d) && IsNsid(m, syntax) && IsNsid(n, syntax)
    ensures Encode(LIVE_COUNTS, LiveKey(c, m)).Ok? && Encode(LIVE_COUNTS, LiveKey(d, n)).Ok?
    ensures Lex.Less(Encode(LIVE_COUNTS, LiveKey(c, m)).value, Encode(LIVE_COUNTS, LiveKey(d, n)).value) <==>
            c < d || (c == d && Lex.Less(m, n))
  {
    LiveKeyFits(c, m, syntax);
    LiveKeyFits(d, n, syntax);
    KeyAtLeast(LIVE_COUNTS, LiveKey(c, m), LiveKey(d, n), [], syntax);
    assert Encode(LIVE_COUNTS, LiveKey(c, m)).value + [] == Encode(LIVE_COUNTS, LiveKey(c, m)).value;
    LiveBefore(c, m, d, n);
  }

  lemma LiveBefore(c: nat, m: string, d: nat, n: string)
    ensures Before(LIVE_COUNTS, LiveKey(c, m), LiveKey(d, n)) <==> c < d || (c == d && Lex.Less(m, n))
  {
    assert Before(LIVE_CURSOR, Pair(Unit, Num(c)), Pair(Unit, Num(d))) <==> c < d;
  }

  lemma LivePrefixEnd()
    ensures PrefixEnd("live_counts" + [NUL]) == Ok("live_counts" + [1 as char])
  {
    var p := "live_counts" + [NUL];
    assert p[..|p| - 1] == "live_counts" && p[|p| - 1] == NUL;
  }

  /** `range_from_cursor` is always a range, and holds exactly the live-count keys with at least that cursor. */
  lemma RangeFromCursorExact(from: nat, cursor: nat, nsid: string, syntax: Syntax)
    requires IsCursor(from) && IsCursor(cursor) && IsNsid(nsid, syntax)
    ensures RangeFromCursor(from).Ok? && Encode(LIVE_COUNTS, LiveKey(cursor, nsid)).Ok?
    ensures InRange(Encode(LIVE_COUNTS, LiveKey(cursor, nsid)).value, RangeFromCursor(from).value.0,
                    RangeFromCursor(from).value.1)
            <==> cursor >= from
  {
    LivePrefixEnd();
    LiveKeyFits(cursor, nsid, syntax);
    LiveKeyFits(from, nsid, syntax);
    var at, key := Pair(Unit, Num(from)), Pair(Unit, Num(cursor));
    assert Encode(Static("live_counts"), Unit) == Ok("live_counts" + [NUL]);
    RangeHoldsExactly(LIVE_CURSOR, at, key, nsid + [NUL], syntax);
    var p := Encode(LIVE_CURSOR, key).value;
    assert p + (nsid + [NUL]) == p + nsid + [NUL];
  }

  /** A feed range from a cursor holds exactly that collection's entries at or after it. */
  lemma FeedRangeExact(collection: string, from: nat, nsid: string, cursor: nat, syntax: Syntax)
    requires IsCursor(from) && IsCursor(cursor) && IsNsid(collection, syntax) && IsNsid(nsid, syntax)
    ensures RangeToPrefixEnd(FEED, Pair(Str(collection), Num(from))).Ok?
    ensures Encode(FEED, Pair(Str(nsid), Num(cursor))).Ok?
    ensures var (low, high) := RangeToPrefixEnd(FEED, Pair(Str(collection), Num(from))).value;
            InRange(Encode(FEED, Pair(Str(nsid), Num(cursor))).value, low, high) <==>
              nsid == collection && cursor >= from
  {
    var at, key := Pair(Str(collection), Num(from)), Pair(Str(nsid), Num(cursor));
    FeedKeyFits(collection, from, syntax);
    FeedKeyFits(nsid, cursor, syntax);
    var p := collection + [NUL];
    assert p[|p| - 1] == NUL;
    assert PrefixEnd(p).Ok?;
    RangeHoldsExactly(FEED, at, key, [], syntax);
    assert Encode(FEED, key).value + [] == Encode(FEED, key).value;
  }

  lemma FeedKeyFits(nsid: string, cursor: nat, syntax: Syntax)
    requires IsCursor(cursor) && IsNsid(nsid, syntax)
    ensures Fits(FEED, Pair(Str(nsid), Num(cursor)), syntax) && Encode(FEED, Pair(Str(nsid), Num(cursor))).Ok?
    ensures Encode(Name, Str(nsid)) == Ok(nsid + [NUL])
  {
  }

  /* ---- what fails, and how ---- */

  /** A string of the key, or one of its static texts, holds the terminator. */
  predicate HoldsNull(shape: Shape, v: Value) {
    match shape
    case Text => v.Str? && NUL in v.s
    case Name => v.Str? && NUL in v.s
    case Static(text) => NUL in text
    case Concat(p, s) => v.Pair? && (HoldsNull(p, v.first) || HoldsNull(s, v.second))
    case _ => false
  }

  /** A key can be encoded exactly when none of its strings holds the terminator, and fails with that error. */
  lemma {:induction false} EncodesIff(shape: Shape, v: Value)
    ensures Encode(shape, v).Ok? <==> !HoldsNull(shape, v)
    ensures HoldsNull(shape, v) ==> Encode(shape, v) == Err(StringContainedNull)
  {
    if shape.Concat? && v.Pair? {
      EncodesIff(shape.prefix, v.first);
      EncodesIff(shape.suffix, v.second);
    }
  }

  /** A string ends at the first terminator: there is none, or what precedes it is the string or not UTF-8. */
  lemma TextErrors(bytes: string, syntax: Syntax)
    ensures DecodeText(bytes, syntax) == Err(UnterminatedString) <==> NUL !in bytes
    ensures forall s, rest :: bytes == s + [NUL] + rest && NUL !in s ==>
              DecodeText(bytes, syntax) == if syntax.utf8(s) then Ok((s, |s| + 1)) else Err(NotUtf8)
  {
    forall s, rest | bytes == s + [NUL] + rest && NUL !in s
      ensures DecodeText(bytes, syntax) == if syntax.utf8(s) then Ok((s, |s| + 1)) else Err(NotUtf8)
    {
      assert bytes[|s|] == NUL && bytes[..|s|] == s;
      assert forall j :: 0 <= j < |s| ==> bytes[j] == s[j];
      assert FindNull(bytes) == |s|;
    }
  }

  /** Bytes after a complete key are reported, with how many there are. */
  lemma LeftOver(shape: Shape, v: Value, rest: string, syntax: Syntax)
    requires Fits(shape, v, syntax) && StaticsOk(shape, syntax) && !HoldsNull(shape, v) && rest != []
    ensures Encode(shape, v).Ok?
    ensures DbComplete(shape, Encode(shape, v).value + rest, syntax) == Err(DecodeTooManyBytes(|rest|))
  {
    EncodesIff(shape, v);
    RoundTrip(shape, v, rest, syntax);
  }
}
