/**
 The browser's `TextDecoderStream` in front of the event stream: the UTF-8 decoder of
 section 8.1.1 of the WHATWG Encoding Standard, fed fragment by fragment, and the
 adapter's `encode()` that it undoes.
 */
module Utf8 {
  type Octet = n: nat | n < 256

  type Octets = seq<Octet>

  /** A byte that may continue a character. */
  type Trail = n: nat | 0x80 <= n < 0xC0 witness 0x80

  const REPLACEMENT: char := '\U{FFFD}'
  const BOM: char := '\U{FEFF}'

  // ---------------------------------------------------------------- decoding

  /** Between two bytes: nothing pending, or a code point with bytes still to come. */
  datatype State =
    | Idle
    | Partial(point: nat, left: nat, lower: Trail, upper: Trail)

  /** Where the decoder is and what it has put out. */
  datatype Decoding = Decoding(state: State, text: string)

  function CharOf(point: nat): char
  {
    if Scalar(point) then point as char else REPLACEMENT
  }

  /** A byte that starts something, or a mistake. */
  function Lead(b: Octet): Decoding
  {
    if b <= 0x7F then Decoding(Idle, [b as char])
    else if 0xC2 <= b <= 0xDF then Decoding(Partial(b - 0xC0, 1, 0x80, 0xBF), "")
    else if 0xE0 <= b <= 0xEF then
      Decoding(Partial(b - 0xE0, 2, if b == 0xE0 then 0xA0 else 0x80, if b == 0xED then 0x9F else 0xBF), "")
    else if 0xF0 <= b <= 0xF4 then
      Decoding(Partial(b - 0xF0, 3, if b == 0xF0 then 0x90 else 0x80, if b == 0xF4 then 0x8F else 0xBF), "")
    else Decoding(Idle, [REPLACEMENT])
  }

  /** One byte; one that does not continue what is pending puts out a replacement and starts over. */
  function Step(state: State, b: Octet): Decoding
  {
    match state
    case Idle => Lead(b)
    case Partial(point, left, lower, upper) =>
      if !(lower <= b <= upper) then
        var again := Lead(b);
        Decoding(again.state, [REPLACEMENT] + again.text)
      else
        var more := point * 64 + (b - 0x80);
        if left <= 1 then Decoding(Idle, [CharOf(more)])
        else Decoding(Partial(more, left - 1, 0x80, 0xBF), "")
  }

  function Feed(state: State, bytes: Octets): Decoding
    decreases |bytes|
  {
    if bytes == [] then Decoding(state, "")
    else
      var one := Step(state, bytes[0]);
      var rest := Feed(one.state, bytes[1..]);
      Decoding(rest.state, one.text + rest.text)
  }

  predicate Scalar(point: nat) { point < 0xD800 || 0xE000 <= point < 0x110000 }

  /** The states the decoder reaches: neither overlong, nor a surrogate, nor beyond the last code point. */
  predicate Sane(state: State)
  {
    match state
    case Idle => true
    case Partial(point, left, lower, upper) =>
      || (left == 1 && lower == 0x80 && upper == 0xBF && Scalar(point * 64) && Scalar(point * 64 + 63))
      || (left == 2 && (lower == 0x80 || point == 0) && (upper == 0xBF || point == 13)
          && (point == 0 ==> lower == 0xA0) && (point == 13 ==> upper == 0x9F) && point < 272)
      || (left == 3 && (lower == 0x80 || point == 0) && (upper == 0xBF || point == 4)
          && (point == 0 ==> lower == 0x90) && (point == 4 ==> upper == 0x8F) && point <= 4)
  }

  /** No character the decoder puts together is anything but a Unicode scalar value. */
  lemma StepIsSane(state: State, b: Octet)
    requires Sane(state)
    ensures Sane(Step(state, b).state)
    ensures state.Partial? && state.left == 1 && state.lower <= b <= state.upper ==>
              Scalar(state.point * 64 + (b - 0x80))
  {
  }

  /** A character that breaks off costs one replacement, and the byte that broke it off is read afresh. */
  lemma BrokenOffStartsOver(state: State, bytes: Octets)
    requires state.Partial? && bytes != [] && !(state.lower <= bytes[0] <= state.upper)
    ensures Feed(state, bytes).state == Feed(Idle, bytes).state
    ensures Feed(state, bytes).text == [REPLACEMENT] + Feed(Idle, bytes).text
  {
    var one := Lead(bytes[0]);
    var rest := Feed(one.state, bytes[1..]).text;
    assert [REPLACEMENT] + one.text + rest == [REPLACEMENT] + (one.text + rest);
  }

  /** A byte that starts nothing costs one replacement of its own. */
  lemma StrayByteIsReplaced(b: Octet)
    requires 0x80 <= b < 0xC2 || b > 0xF4
    ensures Step(Idle, b) == Decoding(Idle, [REPLACEMENT])
  {
  }

  /** What the end of the stream adds. */
  function Flush(state: State): string { if state.Idle? then "" else [REPLACEMENT] }

  function WithoutBom(text: string): string { if text != "" && text[0] == BOM then text[1..] else text }

  /** The text of a whole stream of bytes. */
  function Received(bytes: Octets): string
  {
    var all := Feed(Idle, bytes);
    WithoutBom(all.text + Flush(all.state))
  }

  lemma {:induction false} FeedAppend(state: State, a: Octets, b: Octets)
    ensures var first := Feed(state, a);
            var second := Feed(first.state, b);
            Feed(state, a + b) == Decoding(second.state, first.text + second.text)
    decreases |a|
  {
    if a == [] {
      assert a + b == b;
    } else {
      var one := Step(state, a[0]);
      assert (a + b)[1..] == a[1..] + b;
      FeedAppend(one.state, a[1..], b);
      var first := Feed(one.state, a[1..]);
      Associative(one.text, first.text, Feed(first.state, b).text);
    }
  }

  lemma Associative(a: string, b: string, c: string)
    ensures a + b + c == a + (b + c)
  {
  }

  function Joined(fragments: seq<Octets>): Octets
  {
    if fragments == [] then [] else Joined(fragments[..|fragments| - 1]) + fragments[|fragments| - 1]
  }

  function Flat(texts: seq<string>): string
    decreases |texts|
  {
    if texts == [] then "" else texts[0] + Flat(texts[1..])
  }

  lemma {:induction false} FlatSnoc(texts: seq<string>, last: string)
    ensures Flat(texts + [last]) == Flat(texts) + last
    decreases |texts|
  {
    if texts == [] {
      assert [last][1..] == [] && last + "" == last && "" + last == last;
    } else {
      assert (texts + [last])[1..] == texts[1..] + [last];
      FlatSnoc(texts[1..], last);
      Associative(texts[0], Flat(texts[1..]), last);
    }
  }

  /** `TextDecoderStream`: bytes in, text out, one piece of text for each fragment that completes any. */
  method DecodeStream(fragments: seq<Octets>) returns (texts: seq<string>)
    ensures Flat(texts) == Received(Joined(fragments))
  {
    var state, started := Idle, false;
    texts := [];
    ghost var text := "";
    for n := 0 to |fragments|
      invariant Decoding(state, text) == Feed(Idle, Joined(fragments[..n]))
      invariant Flat(texts) == WithoutBom(text) && (started <==> text != "")
    {
      Onward(fragments, n);
      FeedAppend(Idle, Joined(fragments[..n]), fragments[n]);
      var step := Feed(state, fragments[n]);
      texts, started := Emit(texts, started, step.text, text);
      state, text := step.state, text + step.text;
    }
    assert fragments[..|fragments|] == fragments;
    texts, started := Emit(texts, started, Flush(state), text);
  }

  /** Put out a piece of text, without the mark that may open the stream. */
  method Emit(texts: seq<string>, started: bool, piece: string, ghost text: string)
      returns (texts': seq<string>, started': bool)
    requires Flat(texts) == WithoutBom(text) && (started <==> text != "")
    ensures Flat(texts') == WithoutBom(text + piece) && (started' <==> text + piece != "")
  {
    if piece == "" {
      assert text + piece == text;
      return texts, started;
    }
    var shown := if started then piece else WithoutBom(piece);
    texts', started' := texts + [shown], true;
    FlatSnoc(texts, shown);
    BomIsFirst(text, piece);
  }

  lemma BomIsFirst(text: string, piece: string)
    ensures WithoutBom(text + piece) == if text == "" then WithoutBom(piece) else WithoutBom(text) + piece
  {
    if text == "" { assert text + piece == piece; }
  }

  lemma Onward(fragments: seq<Octets>, n: nat)
    requires n < |fragments|
    ensures Joined(fragments[..n + 1]) == Joined(fragments[..n]) + fragments[n]
  {
    assert fragments[..n + 1][..n] == fragments[..n];
  }

  // ---------------------------------------------------------------- encoding

  function EncodeChar(c: char): Octets
  {
    var x := c as int;
    if x < 0x80 then [x]
    else if x < 0x800 then [0xC0 + x / 64, 0x80 + x % 64]
    else if x < 0x10000 then [0xE0 + x / 4096, 0x80 + x / 64 % 64, 0x80 + x % 64]
    else [0xF0 + x / 262144, 0x80 + x / 4096 % 64, 0x80 + x / 64 % 64, 0x80 + x % 64]
  }

  function Encode(text: string): Octets
    decreases |text|
  {
    if text == "" then [] else EncodeChar(text[0]) + Encode(text[1..])
  }

  /** A byte that puts out nothing yet. */
  lemma FeedFirst(state: State, b: Octet, rest: Octets, next: State)
    requires Step(state, b) == Decoding(next, "")
    ensures Feed(state, [b] + rest) == Feed(next, rest)
  {
    assert ([b] + rest)[1..] == rest;
    assert "" + Feed(next, rest).text == Feed(next, rest).text;
  }

  /** The last byte of a character. */
  lemma FeedLast(point: nat, b: Octet, c: char)
    requires 0x80 <= b <= 0xBF && CharOf(point * 64 + (b - 0x80)) == c
    ensures Feed(Partial(point, 1, 0x80, 0xBF), [b]) == Decoding(Idle, [c])
  {
    assert Feed(Idle, []) == Decoding(Idle, "");
    assert [b][1..] == [];
  }

  lemma CharComesBack(c: char)
    ensures Feed(Idle, EncodeChar(c)) == Decoding(Idle, [c])
  {
    var x, bytes := c as int, EncodeChar(c);
    if x >= 0x80 {
      FeedLast(x / 64, bytes[|bytes| - 1], c);
      if x < 0x800 {
        FeedFirst(Idle, bytes[0], bytes[1..], Partial(x / 64, 1, 0x80, 0xBF));
      } else if x < 0x10000 {
        ThreeBytes(c, x, bytes);
      } else {
        FourBytes(c, x, bytes);
      }
    }
  }

  lemma ThreeBytes(c: char, x: nat, bytes: Octets)
    requires x == c as int && 0x800 <= x < 0x10000 && bytes == EncodeChar(c)
    requires Feed(Partial(x / 64, 1, 0x80, 0xBF), [bytes[2]]) == Decoding(Idle, [c])
    ensures Feed(Idle, bytes) == Decoding(Idle, [c])
  {
    var first := Lead(bytes[0]).state;
    assert x / 64 / 64 == x / 4096;
    FeedFirst(first, bytes[1], [bytes[2]], Partial(x / 64, 1, 0x80, 0xBF));
    FeedFirst(Idle, bytes[0], [bytes[1]] + [bytes[2]], first);
    assert bytes == [bytes[0]] + ([bytes[1]] + [bytes[2]]);
  }

  lemma FourBytes(c: char, x: nat, bytes: Octets)
    requires x == c as int && 0x10000 <= x && bytes == EncodeChar(c)
    requires Feed(Partial(x / 64, 1, 0x80, 0xBF), [bytes[3]]) == Decoding(Idle, [c])
    ensures Feed(Idle, bytes) == Decoding(Idle, [c])
  {
    var first, second := Lead(bytes[0]).state, Partial(x / 4096, 2, 0x80, 0xBF);
    assert x / 4096 / 64 == x / 262144 && x / 64 / 64 == x / 4096;
    FeedFirst(second, bytes[2], [bytes[3]], Partial(x / 64, 1, 0x80, 0xBF));
    FeedFirst(first, bytes[1], [bytes[2]] + [bytes[3]], second);
    FeedFirst(Idle, bytes[0], [bytes[1]] + ([bytes[2]] + [bytes[3]]), first);
    assert bytes == [bytes[0]] + ([bytes[1]] + ([bytes[2]] + [bytes[3]]));
  }

  lemma {:induction false} EncodedComesBack(text: string)
    ensures Feed(Idle, Encode(text)) == Decoding(Idle, text)
    decreases |text|
  {
    if text != "" {
      CharComesBack(text[0]);
      EncodedComesBack(text[1..]);
      FeedAppend(Idle, EncodeChar(text[0]), Encode(text[1..]));
      assert [text[0]] + text[1..] == text;
    }
  }

  /** Encoded text comes back, unless it starts with a byte order mark. */
  lemma EncodeThenDecode(text: string)
    ensures Received(Encode(text)) == text <==> text == "" || text[0] != BOM
  {
    EncodedComesBack(text);
    assert text + "" == text;
  }

  // ------------------------------------------------------- nothing else is decoded

  /**
   A character that bytes are put together to, without a replacement, is the one they encode:
   `before` are the bytes that led to this state.
   */
  predicate LedTo(before: Octets, state: State)
  {
    match state
    case Idle => before == []
    case Partial(point, left, lower, upper) =>
      || (left == 1 && |before| == 1 && before[0] == 0xC0 + point && 2 <= point < 32 && lower == 0x80 && upper == 0xBF)
      || (left == 1 && |before| == 2 && lower == 0x80 && upper == 0xBF && Two(before, point))
      || (left == 1 && |before| == 3 && lower == 0x80 && upper == 0xBF && Three(before, point))
      || (left == 2 && |before| == 1 && before[0] == 0xE0 + point && point < 16
          && (point == 0 ==> lower == 0xA0) && (point == 13 ==> upper == 0x9F))
      || (left == 2 && |before| == 2 && lower == 0x80 && upper == 0xBF && 16 <= point < 272
          && before == [0xF0 + point / 64, 0x80 + point % 64])
      || (left == 3 && |before| == 1 && before[0] == 0xF0 + point && point < 5
          && (point == 0 ==> lower == 0x90) && (point == 4 ==> upper == 0x8F))
  }

  predicate Two(before: Octets, point: nat)
  {
    32 <= point < 1024 && !(864 <= point < 896) && before == [0xE0 + point / 64, 0x80 + point % 64]
  }

  predicate Three(before: Octets, point: nat)
  {
    1024 <= point < 17408 && before == [0xF0 + point / 4096, 0x80 + point / 64 % 64, 0x80 + point % 64]
  }

  lemma LastOfTwo(point: nat, b: Trail)
    requires 2 <= point < 32
    ensures var x := point * 64 + (b - 0x80); Scalar(x) && EncodeChar(x as char) == [0xC0 + point, b]
  {
    var x := point * 64 + (b - 0x80);
    assert x / 64 == point && x % 64 == b - 0x80;
  }

  lemma LastOfThree(before: Octets, point: nat, b: Trail)
    requires Two(before, point)
    ensures var x := point * 64 + (b - 0x80); Scalar(x) && EncodeChar(x as char) == before + [b]
  {
    var x := point * 64 + (b - 0x80);
    assert x / 64 == point && x % 64 == b - 0x80 && x / 4096 == point / 64;
  }

  lemma LastOfFour(before: Octets, point: nat, b: Trail)
    requires Three(before, point)
    ensures var x := point * 64 + (b - 0x80); Scalar(x) && EncodeChar(x as char) == before + [b]
  {
    var x := point * 64 + (b - 0x80);
    assert x / 64 == point && x % 64 == b - 0x80 && x / 4096 == point / 64 && x / 262144 == point / 4096;
  }

  lemma SecondOfThree(point: nat, b: Trail)
    requires point < 16 && (point == 0 ==> b >= 0xA0) && (point == 13 ==> b <= 0x9F)
    ensures Two([0xE0 + point, b], point * 64 + (b - 0x80))
  {
    var x := point * 64 + (b - 0x80);
    assert x / 64 == point && x % 64 == b - 0x80;
  }

  lemma SecondOfFour(point: nat, b: Trail)
    requires point < 5 && (point == 0 ==> b >= 0x90) && (point == 4 ==> b <= 0x8F)
    ensures var x := point * 64 + (b - 0x80);
            16 <= x < 272 && [0xF0 + point, b] == [0xF0 + x / 64, 0x80 + x % 64]
  {
    var x := point * 64 + (b - 0x80);
    assert x / 64 == point && x % 64 == b - 0x80;
  }

  lemma ThirdOfFour(point: nat, b: Trail)
    requires 16 <= point < 272
    ensures Three([0xF0 + point / 64, 0x80 + point % 64, b], point * 64 + (b - 0x80))
  {
    var x := point * 64 + (b - 0x80);
    assert x / 64 == point && x % 64 == b - 0x80 && x / 4096 == point / 64;
  }

  lemma TrailGoesOn(before: Octets, state: State, b: Trail)
    requires LedTo(before, state) && state.Partial? && state.lower <= b <= state.upper
    ensures var next := Step(state, b);
            if next.state.Idle? then |next.text| == 1 && EncodeChar(next.text[0]) == before + [b]
            else next.text == "" && LedTo(before + [b], next.state)
  {
    var point := state.point;
    if state.left == 1 {
      if |before| == 1 {
        LastOfTwo(point, b);
        assert before + [b] == [0xC0 + point, b];
      } else if |before| == 2 {
        LastOfThree(before, point, b);
      } else {
        LastOfFour(before, point, b);
      }
    } else if |before| == 1 {
      assert before + [b] == [before[0], b];
      if state.left == 2 { SecondOfThree(point, b); } else { SecondOfFour(point, b); }
    } else {
      ThirdOfFour(point, b);
      assert before + [b] == [before[0], before[1], b];
    }
  }

  lemma Breaks(state: State, b: Octet)
    requires state.Partial? && !(state.lower <= b <= state.upper)
    ensures REPLACEMENT in Step(state, b).text
  {
    assert Step(state, b).text[0] == REPLACEMENT;
  }

  lemma StepGoesOn(before: Octets, state: State, b: Octet)
    requires LedTo(before, state) && REPLACEMENT !in Step(state, b).text
    ensures var next := Step(state, b);
            if next.state.Idle? then |next.text| == 1 && EncodeChar(next.text[0]) == before + [b]
            else next.text == "" && LedTo(before + [b], next.state)
  {
    if state.Partial? {
      if !(state.lower <= b <= state.upper) { Breaks(state, b); }
      TrailGoesOn(before, state, b);
    }
  }

  lemma EncodeSnocFirst(c: char, text: string)
    ensures Encode([c] + text) == EncodeChar(c) + Encode(text)
  {
    assert ([c] + text)[1..] == text;
  }

  /** The bytes so far and those to come are the encoding of the text and the start of one more character. */
  predicate Accounts(before: Octets, bytes: Octets, text: string, last: Octets)
  {
    before + bytes == Encode(text) + last
  }

  lemma Glue(before: Octets, first: Octet, rest: Octets, code: Octets, more: Octets, last: Octets)
    requires code == before + [first] && rest == more + last
    ensures before + ([first] + rest) == code + more + last
  {
  }

  lemma AfterChar(before: Octets, first: Octet, tail: Octets, bytes: Octets, c: char, text: string, last: Octets)
    requires bytes == [first] + tail && EncodeChar(c) == before + [first] && Accounts([], tail, text, last)
    ensures Accounts(before, bytes, [c] + text, last)
  {
    assert [] + tail == tail;
    EncodeSnocFirst(c, text);
    Glue(before, first, tail, EncodeChar(c), Encode(text), last);
  }

  lemma AfterByte(before: Octets, first: Octet, tail: Octets, bytes: Octets, text: string, last: Octets)
    requires bytes == [first] + tail && Accounts(before + [first], tail, text, last)
    ensures Accounts(before, bytes, text, last)
  {
    assert before + bytes == before + [first] + tail;
  }

  lemma NothingMore(before: Octets)
    ensures Accounts(before, [], "", before)
  {
    assert before + [] == before && Encode("") + before == before;
  }

  lemma FeedCons(state: State, first: Octet, tail: Octets, bytes: Octets)
    requires bytes == [first] + tail
    ensures var one := Step(state, first);
            Feed(state, bytes).state == Feed(one.state, tail).state
            && Feed(state, bytes).text == one.text + Feed(one.state, tail).text
  {
    assert bytes[0] == first && bytes[1..] == tail;
  }

  lemma InEither(c: char, a: string, b: string)
    ensures c in a + b <==> c in a || c in b
  {
    if i :| 0 <= i < |a| && a[i] == c { assert (a + b)[i] == c; }
    if i :| 0 <= i < |b| && b[i] == c { assert (a + b)[|a| + i] == c; }
  }

  /** What is decoded without a replacement is the encoding of what comes out, up to a character cut short. */
  lemma {:induction false} OnlyEncodingsDecode(before: Octets, state: State, bytes: Octets) returns (last: Octets)
    requires LedTo(before, state) && REPLACEMENT !in Feed(state, bytes).text
    ensures LedTo(last, Feed(state, bytes).state) && Accounts(before, bytes, Feed(state, bytes).text, last)
    decreases |bytes|
  {
    if bytes == [] {
      last := before;
      NothingMore(before);
    } else {
      var first, tail := bytes[0], bytes[1..];
      var one := Step(state, first);
      var text := Feed(one.state, tail).text;
      FeedCons(state, first, tail, bytes);
      InEither(REPLACEMENT, one.text, text);
      StepGoesOn(before, state, first);
      if one.state.Idle? {
        last := OnlyEncodingsDecode([], Idle, tail);
        AfterChar(before, first, tail, bytes, one.text[0], text, last);
        assert one.text == [one.text[0]];
      } else {
        last := OnlyEncodingsDecode(before + [first], one.state, tail);
        AfterByte(before, first, tail, bytes, text, last);
        assert one.text + text == text;
      }
    }
  }

  lemma FlushedIsIdle(state: State)
    ensures REPLACEMENT in Flush(state) <==> state.Partial?
  {
    if state.Partial? { assert Flush(state)[0] == REPLACEMENT; }
  }

  /** Bytes decode without a replacement exactly if they are the encoding of a text without one. */
  lemma DecodesCleanlyIffEncoded(bytes: Octets)
    ensures var end := Feed(Idle, bytes);
            REPLACEMENT !in end.text + Flush(end.state)
            <==> exists text: string :: REPLACEMENT !in text && bytes == Encode(text)
  {
    var end := Feed(Idle, bytes);
    InEither(REPLACEMENT, end.text, Flush(end.state));
    if REPLACEMENT !in end.text + Flush(end.state) {
      var last := OnlyEncodingsDecode([], Idle, bytes);
      FlushedIsIdle(end.state);
      assert last == [] && [] + bytes == bytes && Encode(end.text) + [] == Encode(end.text);
    }
    if text: string :| REPLACEMENT !in text && bytes == Encode(text) {
      EncodedComesBack(text);
    }
  }
}
