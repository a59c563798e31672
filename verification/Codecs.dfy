/**
 What the stream results assume of JSON and base64 can be had: a codec that is
 faithful and in which no payload is the content of its own single chunk.
 */
module Codecs {
  import opened Base
  import opened Chunking
  import opened Wire

  type Bits = seq<bool>

  // ------------------------------------------- prefix-free codes for the parts

  function Unary(n: nat): Bits { if n == 0 then [false] else [true] + Unary(n - 1) }

  lemma {:induction false} UnaryFree(n: nat, m: nat, x: Bits, y: Bits)
    requires Unary(n) + x == Unary(m) + y
    ensures n == m && x == y
    decreases n
  {
    assert (Unary(n) + x)[0] == (Unary(m) + y)[0];
    assert (Unary(n) + x)[1..] == (Unary(m) + y)[1..];
    if n == 0 {
      assert (Unary(n) + x)[1..] == x && (Unary(m) + y)[1..] == y;
    } else {
      assert (Unary(n) + x)[1..] == Unary(n - 1) + x && (Unary(m) + y)[1..] == Unary(m - 1) + y;
      UnaryFree(n - 1, m - 1, x, y);
    }
  }

  /** A code followed by more. */
  function Then(flag: bool, code: Bits, more: Bits): (bits: Bits)
    ensures |bits| == 1 + |code| + |more|
  {
    [flag] + (code + more)
  }

  lemma ThenFree(flag: bool, code: Bits, more: Bits, flag': bool, code': Bits, more': Bits, x: Bits, y: Bits)
    requires Then(flag, code, more) + x == Then(flag', code', more') + y
    ensures flag == flag' && code + (more + x) == code' + (more' + y)
  {
    var a, b := Then(flag, code, more) + x, Then(flag', code', more') + y;
    assert a[0] == flag && b[0] == flag';
    assert a[1..] == code + (more + x) && b[1..] == code' + (more' + y);
  }

  function TextBits(s: string): Bits
    ensures |TextBits(s)| > |s|
  {
    if s == "" then [false] else Then(true, Unary(s[0] as nat), TextBits(s[1..]))
  }

  lemma {:induction false} TextFree(s: string, t: string, x: Bits, y: Bits)
    requires TextBits(s) + x == TextBits(t) + y
    ensures s == t && x == y
    decreases |s|
  {
    assert (TextBits(s) + x)[0] == (TextBits(t) + y)[0];
    if s == "" {
      assert (TextBits(s) + x)[1..] == x && (TextBits(t) + y)[1..] == y;
    } else {
      ThenFree(true, Unary(s[0] as nat), TextBits(s[1..]), true, Unary(t[0] as nat), TextBits(t[1..]), x, y);
      UnaryFree(s[0] as nat, t[0] as nat, TextBits(s[1..]) + x, TextBits(t[1..]) + y);
      TextFree(s[1..], t[1..], x, y);
      assert s == [s[0]] + s[1..] && t == [t[0]] + t[1..];
    }
  }

  /** A kind, a sign and a text or a number. */
  function ValueBits(v: Value): Bits
    ensures v.Text? ==> |ValueBits(v)| > |v.text|
  {
    match v
    case Text(text) => Then(true, Unary(0), TextBits(text))
    case Number(n) => Then(false, Unary(if n < 0 then 1 else 0), Unary(if n < 0 then -n else n))
    case Other(json) => Then(true, Unary(1), TextBits(json))
  }

  lemma ValueFree(v: Value, w: Value, x: Bits, y: Bits)
    requires ValueBits(v) + x == ValueBits(w) + y
    ensures v == w && x == y
  {
    assert (ValueBits(v) + x)[0] == (ValueBits(w) + y)[0];
    match v
    case Number(n) =>
      var m := w.number;
      ThenFree(false, Unary(if n < 0 then 1 else 0), Unary(if n < 0 then -n else n),
               false, Unary(if m < 0 then 1 else 0), Unary(if m < 0 then -m else m), x, y);
      UnaryFree(if n < 0 then 1 else 0, if m < 0 then 1 else 0,
                Unary(if n < 0 then -n else n) + x, Unary(if m < 0 then -m else m) + y);
      UnaryFree(if n < 0 then -n else n, if m < 0 then -m else m, x, y);
    case _ =>
      var s, t := TextOf(v), TextOf(w);
      ThenFree(true, Unary(KindOf(v)), TextBits(s), true, Unary(KindOf(w)), TextBits(t), x, y);
      UnaryFree(KindOf(v), KindOf(w), TextBits(s) + x, TextBits(t) + y);
      TextFree(s, t, x, y);
  }

  function TextOf(v: Value): string
    requires !v.Number?
  {
    if v.Text? then v.text else v.json
  }

  function KindOf(v: Value): nat { if v.Text? then 0 else 1 }

  /** The field that comes first, which depends on the fields alone. */
  ghost function First(p: Payload): (k: string)
    requires p != map[]
    ensures k in p
  {
    var k :| k in p;
    k
  }

  ghost function FieldBits(p: Payload): Bits
    decreases |p|
  {
    if p == map[] then [false]
    else Then(true, TextBits(First(p)), ValueBits(p[First(p)]) + FieldBits(p - {First(p)}))
  }

  lemma Regroup(a: Bits, b: Bits, c: Bits)
    ensures a + b + c == a + (b + c)
  {
  }

  lemma FieldThenMore(k: string, v: Value, more: Bits, l: string, w: Value, more': Bits, x: Bits, y: Bits)
    requires Then(true, TextBits(k), ValueBits(v) + more) + x == Then(true, TextBits(l), ValueBits(w) + more') + y
    ensures k == l && v == w && more + x == more' + y
  {
    ThenFree(true, TextBits(k), ValueBits(v) + more, true, TextBits(l), ValueBits(w) + more', x, y);
    TextFree(k, l, ValueBits(v) + more + x, ValueBits(w) + more' + y);
    Regroup(ValueBits(v), more, x);
    Regroup(ValueBits(w), more', y);
    ValueFree(v, w, more + x, more' + y);
  }

  /** Two nonempty payloads with the same code start with the same field. */
  lemma SameFirst(p: Payload, q: Payload, x: Bits, y: Bits)
    requires p != map[] && q != map[] && FieldBits(p) + x == FieldBits(q) + y
    ensures First(p) == First(q) && p[First(p)] == q[First(p)]
    ensures FieldBits(p - {First(p)}) + x == FieldBits(q - {First(p)}) + y
  {
    var k, l := First(p), First(q);
    FieldThenMore(k, p[k], FieldBits(p - {k}), l, q[l], FieldBits(q - {l}), x, y);
  }

  lemma {:induction false} FieldFree(p: Payload, q: Payload, x: Bits, y: Bits)
    requires FieldBits(p) + x == FieldBits(q) + y
    ensures p == q && x == y
    decreases |p|
  {
    assert (FieldBits(p) + x)[0] == (FieldBits(q) + y)[0];
    if p == map[] {
      assert (FieldBits(p) + x)[1..] == x && (FieldBits(q) + y)[1..] == y;
    } else {
      var k := First(p);
      SameFirst(p, q, x, y);
      FieldFree(p - {k}, q - {k}, x, y);
      assert p == (p - {k})[k := p[k]] && q == (q - {k})[k := q[k]];
    }
  }

  lemma {:induction false} FieldsAreLonger(p: Payload, key: string)
    requires key in p && p[key].Text?
    ensures |FieldBits(p)| > |p[key].text|
    decreases |p|
  {
    if First(p) != key {
      FieldsAreLonger(p - {First(p)}, key);
    }
  }

  ghost function EnvelopeBits(e: Envelope): Bits
  {
    var rest := TextBits(e.operation) + (Unary(e.sequence) + FieldBits(e.payload));
    Then(e.requestId.Some?, TextBits(if e.requestId.Some? then e.requestId.value else ""), rest)
  }

  lemma EnvelopeInjective(e: Envelope, f: Envelope)
    requires EnvelopeBits(e) == EnvelopeBits(f)
    ensures e == f
  {
    var restE := TextBits(e.operation) + (Unary(e.sequence) + FieldBits(e.payload));
    var restF := TextBits(f.operation) + (Unary(f.sequence) + FieldBits(f.payload));
    var idE := if e.requestId.Some? then e.requestId.value else "";
    var idF := if f.requestId.Some? then f.requestId.value else "";
    assert EnvelopeBits(e) + [] == EnvelopeBits(e) && EnvelopeBits(f) + [] == EnvelopeBits(f);
    ThenFree(e.requestId.Some?, TextBits(idE), restE, f.requestId.Some?, TextBits(idF), restF, [], []);
    assert restE + [] == restE && restF + [] == restF;
    TextFree(idE, idF, restE, restF);
    TextFree(e.operation, f.operation, Unary(e.sequence) + FieldBits(e.payload),
             Unary(f.sequence) + FieldBits(f.payload));
    UnaryFree(e.sequence, f.sequence, FieldBits(e.payload), FieldBits(f.payload));
    assert FieldBits(e.payload) + [] == FieldBits(f.payload) + [];
    FieldFree(e.payload, f.payload, [], []);
  }

  // -------------------------------------------------------- bits as bytes and text

  function BitBytes(bits: Bits): (b: Bytes)
    ensures |b| == |bits| && forall i | 0 <= i < |bits| :: b[i] == if bits[i] then 1 else 0
  {
    seq(|bits|, i requires 0 <= i < |bits| => if bits[i] then 1 else 0)
  }

  function BitText(bits: Bits): (text: string)
    ensures |text| == |bits| && forall i | 0 <= i < |bits| :: text[i] == if bits[i] then '1' else '0'
  {
    seq(|bits|, i requires 0 <= i < |bits| => if bits[i] then '1' else '0')
  }

  lemma BitBytesInjective(a: Bits, b: Bits)
    requires BitBytes(a) == BitBytes(b)
    ensures a == b
  {
    assert forall i | 0 <= i < |a| :: BitBytes(a)[i] == BitBytes(b)[i];
  }

  lemma BitTextInjective(a: Bits, b: Bits)
    requires BitText(a) == BitText(b)
    ensures a == b
  {
    assert forall i | 0 <= i < |a| :: BitText(a)[i] == BitText(b)[i];
  }

  /** One character a byte. */
  function ByteText(b: Bytes): (text: string)
    ensures |text| == |b| && forall i | 0 <= i < |b| :: text[i] == b[i] as char
  {
    seq(|b|, i requires 0 <= i < |b| => b[i] as char)
  }

  lemma SameByte(x: bv8, y: bv8)
    requires x as char == y as char
    ensures x == y
  {
    assert (x as char) as bv8 == x && (y as char) as bv8 == y;
  }

  lemma ByteTextInjective(a: Bytes, b: Bytes)
    requires ByteText(a) == ByteText(b)
    ensures a == b
  {
    forall i | 0 <= i < |a|
      ensures a[i] == b[i]
    {
      assert ByteText(a)[i] == ByteText(b)[i];
      SameByte(a[i], b[i]);
    }
  }

  // ------------------------------------------------------------------ the codec

  ghost function Encode(p: Payload): Bytes { BitBytes(FieldBits(p)) }

  ghost function Decode(b: Bytes): (r: Option<Payload>)
    ensures r.Some? ==> Encode(r.value) == b
    ensures r.None? ==> forall p :: Encode(p) != b
  {
    if p: Payload :| Encode(p) == b then Some(p) else None
  }

  ghost function Unbase(text: string): (r: Option<Bytes>)
    ensures r.Some? ==> ByteText(r.value) == text
    ensures r.None? ==> forall b :: ByteText(b) != text
  {
    if b: Bytes :| ByteText(b) == text then Some(b) else None
  }

  ghost function Show(e: Envelope): string { "{" + BitText(EnvelopeBits(e)) }

  ghost function Parse(text: string): (r: Option<Envelope>)
    ensures r.Some? ==> Show(r.value) == text
    ensures r.None? ==> forall e :: Show(e) != text
  {
    if e: Envelope :| Show(e) == text then Some(e) else None
  }

  lemma ShowUndone(e: Envelope)
    ensures Parse(Show(e)) == Some(e) && Show(e)[0] == '{' && '\n' !in Show(e)
  {
    var f := Parse(Show(e)).value;
    assert Show(f)[1..] == BitText(EnvelopeBits(f)) && Show(e)[1..] == BitText(EnvelopeBits(e));
    BitTextInjective(EnvelopeBits(f), EnvelopeBits(e));
    EnvelopeInjective(f, e);
  }

  lemma EncodeUndone(p: Payload)
    ensures Decode(Encode(p)) == Some(p)
  {
    var q := Decode(Encode(p)).value;
    BitBytesInjective(FieldBits(q), FieldBits(p));
    FieldFree(q, p, [], []);
  }

  lemma BaseUndone(b: Bytes)
    ensures Unbase(ByteText(b)) == Some(b)
  {
    ByteTextInjective(Unbase(ByteText(b)).value, b);
  }

  /** The assumptions of the stream results hold together. */
  lemma CodecsExist() returns (c: Codec)
    ensures Faithful(c) && NotSelfContained(c)
  {
    c := Codec(p => Encode(p), b => Decode(b), b => ByteText(b), t => Unbase(t), e => Show(e), t => Parse(t));
    forall p ensures c.decode(c.encode(p)) == Some(p) { EncodeUndone(p); }
    forall b ensures c.unbase64(c.base64(b)) == Some(b) { BaseUndone(b); }
    forall e ensures c.parse(c.show(e)) == Some(e) && c.show(e)[0] == '{' && '\n' !in c.show(e) { ShowUndone(e); }
    forall p: Payload | ChunkShaped(p) && p["chunkData"].Text? && c.unbase64(p["chunkData"].text).Some?
      ensures c.decode(c.unbase64(p["chunkData"].text).value) != Some(p)
    {
      FieldsAreLonger(p, "chunkData");
    }
  }
}
