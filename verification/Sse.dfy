/**
 Server-sent events: `_write_sse` on the adapter's side, `parseSse` on the
 browser's, with the bytes cut into fragments anywhere on the way. Compare
 sections 9.2.5 and 9.2.6 of the WHATWG HTML Standard.
 */
module Sse {
  import opened Wire
  import opened Utf8

  // ---------------------------------------------------------------- printing

  function Decimal(n: nat): (text: string)
    ensures text != "" && '\n' !in text
  {
    if n < 10 then [('0' as int + n) as char] else Decimal(n / 10) + [('0' as int + n % 10) as char]
  }

  function Head(e: Envelope): (line: string)
    ensures '\n' !in line
  {
    "id: " + Decimal(e.sequence)
  }

  function Block(c: Codec, e: Envelope): string
  {
    Head(e) + "\n" + ("event: " + e.operation) + "\n" + ("data: " + c.show(e))
  }

  /** The text `_write_sse` writes for each envelope in turn. */
  function TextOf(c: Codec, es: seq<Envelope>): string
    decreases |es|
  {
    if es == [] then "" else Block(c, es[0]) + "\n\n" + TextOf(c, es[1..])
  }

  // ----------------------------------------------------------------- cutting

  predicate IsBoundary(text: string, k: nat)
  {
    k + 1 < |text| && text[k] == '\n' && text[k + 1] == '\n'
  }

  /** The first empty line at or after `from`, or the length. */
  function Boundary(text: string, from: nat): (b: nat)
    requires from <= |text|
    ensures from <= b <= |text| && (b < |text| ==> IsBoundary(text, b))
    ensures forall k | from <= k < b :: !IsBoundary(text, k)
    decreases |text| - from
  {
    if from == |text| || IsBoundary(text, from) then from else Boundary(text, from + 1)
  }

  datatype Cut = Cut(blocks: seq<string>, rest: string)

  /** All complete blocks of a text, and what is left over. */
  function CutUp(text: string): Cut
    decreases |text|
  {
    var b := Boundary(text, 0);
    if b == |text| then Cut([], text)
    else
      var later := CutUp(text[b + 2..]);
      Cut([text[..b]] + later.blocks, later.rest)
  }

  lemma BoundaryIs(text: string, b: nat)
    requires IsBoundary(text, b) && forall k | 0 <= k < b :: !IsBoundary(text, k)
    ensures Boundary(text, 0) == b
  {
  }

  lemma BoundaryStays(text: string, more: string)
    requires Boundary(text, 0) < |text|
    ensures Boundary(text + more, 0) == Boundary(text, 0)
  {
    var b := Boundary(text, 0);
    forall k: nat | k <= b
      ensures IsBoundary(text + more, k) == IsBoundary(text, k)
    {
      assert k + 1 < |text|;
    }
    BoundaryIs(text + more, b);
  }

  lemma Associates(block: string, a: seq<string>, b: seq<string>)
    ensures [block] + (a + b) == [block] + a + b
  {
  }

  lemma CutFirst(text: string, b: nat)
    requires Boundary(text, 0) == b < |text|
    ensures CutUp(text).blocks == [text[..b]] + CutUp(text[b + 2..]).blocks
    ensures CutUp(text).rest == CutUp(text[b + 2..]).rest
  {
  }

  lemma Slices(text: string, more: string, b: nat)
    requires b + 2 <= |text|
    ensures (text + more)[..b] == text[..b] && (text + more)[b + 2..] == text[b + 2..] + more
  {
  }

  /** Cutting as the text grows finds the same blocks as cutting all of it at the end. */
  lemma {:induction false} CutAppend(text: string, more: string)
    ensures CutUp(text + more).blocks == CutUp(text).blocks + CutUp(CutUp(text).rest + more).blocks
    ensures CutUp(text + more).rest == CutUp(CutUp(text).rest + more).rest
    decreases |text|
  {
    var b := Boundary(text, 0);
    if b < |text| {
      BoundaryStays(text, more);
      var tail := text[b + 2..];
      CutFirst(text, b);
      CutFirst(text + more, b);
      Slices(text, more, b);
      CutAppend(tail, more);
      Associates(text[..b], CutUp(tail).blocks, CutUp(CutUp(tail).rest + more).blocks);
    }
  }

  // ----------------------------------------------------------------- parsing

  function LineEnd(text: string): (i: nat)
    ensures i <= |text| && '\n' !in text[..i] && (i < |text| ==> text[i] == '\n')
  {
    if text == "" || text[0] == '\n' then 0
    else
      var i := 1 + LineEnd(text[1..]);
      assert text[..i] == [text[0]] + text[1..][..i - 1];
      i
  }

  function Lines(text: string): (lines: seq<string>)
    decreases |text|
  {
    var i := LineEnd(text);
    if i == |text| then [text] else [text[..i]] + Lines(text[i + 1..])
  }

  /** What `trimStart` removes: the white space and line terminators of ECMA-262. */
  const SPACES: set<char> := {
    '\t', '\U{B}', '\U{C}', ' ', '\U{A0}', '\U{FEFF}', '\n', '\r', '\U{2028}', '\U{2029}',
    '\U{1680}', '\U{2000}', '\U{2001}', '\U{2002}', '\U{2003}', '\U{2004}', '\U{2005}', '\U{2006}',
    '\U{2007}', '\U{2008}', '\U{2009}', '\U{200A}', '\U{202F}', '\U{205F}', '\U{3000}' }

  function TrimStart(text: string): string
  {
    if text != "" && text[0] in SPACES then TrimStart(text[1..]) else text
  }

  /** The contents of the `data:` lines. */
  function DataLines(lines: seq<string>): seq<string>
  {
    if lines == [] then []
    else (if "data:" <= lines[0] then [TrimStart(lines[0][5..])] else []) + DataLines(lines[1..])
  }

  function JoinLines(lines: seq<string>): string
  {
    if lines == [] then "" else if |lines| == 1 then lines[0] else lines[0] + "\n" + JoinLines(lines[1..])
  }

  /** Cutting into lines and joining them again loses nothing. */
  lemma {:induction false} LinesJoin(text: string)
    ensures JoinLines(Lines(text)) == text && Lines(text) != []
    decreases |text|
  {
    var i := LineEnd(text);
    if i < |text| {
      var rest := text[i + 1..];
      LinesJoin(rest);
      JoinLinesCons(text[..i], Lines(rest));
      AtBreak(text, i);
    }
  }

  lemma JoinLinesCons(line: string, more: seq<string>)
    requires more != []
    ensures JoinLines([line] + more) == line + "\n" + JoinLines(more)
  {
    assert ([line] + more)[1..] == more;
  }

  lemma AtBreak(text: string, i: nat)
    requires i < |text| && text[i] == '\n'
    ensures text == text[..i] + "\n" + text[i + 1..]
  {
  }

  /** A line of text as a field of the block, after one blank as the format allows. */
  function AsData(line: string): string { "data: " + line }

  /** The block that carries these lines of text, with other fields around them. */
  function DataBlock(lines: seq<string>): seq<string>
  {
    if lines == [] then [] else [AsData(lines[0])] + DataBlock(lines[1..])
  }

  /** Text that is written line by line into data fields comes out whole, as long as no line starts with a blank. */
  lemma {:induction false} DataLinesComeBack(lines: seq<string>)
    requires forall i | 0 <= i < |lines| :: TrimStart(lines[i]) == lines[i]
    ensures DataLines(DataBlock(lines)) == lines
    decreases |lines|
  {
    if lines != [] {
      var line, rest := lines[0], lines[1..];
      DataLinesComeBack(rest);
      OneDataLine(line, DataBlock(rest));
      assert [line] + rest == lines;
    }
  }

  lemma OneDataLine(line: string, after: seq<string>)
    requires TrimStart(line) == line
    ensures DataLines([AsData(line)] + after) == [line] + DataLines(after)
  {
    var all := [AsData(line)] + after;
    assert all[1..] == after;
    assert "data:" <= AsData(line) && AsData(line)[5..] == " " + line;
    assert (" " + line)[1..] == line;
  }

  /** Lines of other fields, and comments, add nothing; the order of the data lines is kept. */
  lemma {:induction false} OtherLinesAddNothing(before: seq<string>, other: string, after: seq<string>)
    requires !("data:" <= other)
    ensures DataLines(before + [other] + after) == DataLines(before) + DataLines(after)
    decreases |before|
  {
    if before == [] {
      assert before + [other] + after == [other] + after && ([other] + after)[1..] == after;
    } else {
      var all := before + [other] + after;
      assert all[1..] == before[1..] + [other] + after;
      OtherLinesAddNothing(before[1..], other, after);
    }
  }

  function Data(block: string): string { JoinLines(DataLines(Lines(block))) }

  /** Envelopes read so far, and whether every block so far was valid. */
  datatype Parse = Parse(envelopes: seq<Envelope>, ok: bool)

  function ParseBlock(c: Codec, before: Parse, block: string): Parse
  {
    var data := Data(block);
    if !before.ok || data == "" then before
    else
      var e := c.parse(data);
      if e.None? then Parse(before.envelopes, false) else Parse(before.envelopes + [e.value], true)
  }

  /** A block without data is skipped, a valid one adds its envelope, and an invalid one ends the stream. */
  lemma OneBlock(c: Codec, before: Parse, block: string)
    requires before.ok
    ensures Data(block) == "" ==> ParseBlock(c, before, block) == before
    ensures Data(block) != "" && c.parse(Data(block)).Some? ==>
              ParseBlock(c, before, block) == Parse(before.envelopes + [c.parse(Data(block)).value], true)
    ensures Data(block) != "" && c.parse(Data(block)).None? ==>
              ParseBlock(c, before, block) == Parse(before.envelopes, false)
  {
  }

  function ParseBlocks(c: Codec, before: Parse, blocks: seq<string>): Parse
    decreases |blocks|
  {
    if blocks == [] then before else ParseBlocks(c, ParseBlock(c, before, blocks[0]), blocks[1..])
  }

  lemma {:induction false} ParseAppend(c: Codec, before: Parse, a: seq<string>, b: seq<string>)
    ensures ParseBlocks(c, before, a + b) == ParseBlocks(c, ParseBlocks(c, before, a), b)
    decreases |a|
  {
    if a == [] {
      assert a + b == b;
    } else {
      assert (a + b)[1..] == a[1..] + b;
      ParseAppend(c, ParseBlock(c, before, a[0]), a[1..], b);
    }
  }

  lemma {:induction false} FailureStays(c: Codec, before: Parse, blocks: seq<string>)
    requires !before.ok
    ensures ParseBlocks(c, before, blocks) == before
    decreases |blocks|
  {
    if blocks != [] { FailureStays(c, before, blocks[1..]); }
  }

  /** What a text parses to, and what of it is left over. */
  function ParseText(c: Codec, text: string): Parse { ParseBlocks(c, Parse([], true), CutUp(text).blocks) }

  lemma ParseMore(c: Codec, text: string, more: string)
    ensures ParseText(c, text + more) == ParseBlocks(c, ParseText(c, text), CutUp(CutUp(text).rest + more).blocks)
    ensures CutUp(text + more).rest == CutUp(CutUp(text).rest + more).rest
    ensures !ParseText(c, text).ok ==> ParseText(c, text + more) == ParseText(c, text)
  {
    CutAppend(text, more);
    ParseAppend(c, Parse([], true), CutUp(text).blocks, CutUp(CutUp(text).rest + more).blocks);
    if !ParseText(c, text).ok {
      FailureStays(c, ParseText(c, text), CutUp(CutUp(text).rest + more).blocks);
    }
  }

  lemma FlatStep(text: string, fragments: seq<string>, n: nat)
    requires n < |fragments|
    ensures text + Flat(fragments[n..]) == text + fragments[n] + Flat(fragments[n + 1..])
  {
    assert fragments[n..][1..] == fragments[n + 1..];
    assert text + (fragments[n] + Flat(fragments[n + 1..])) == text + fragments[n] + Flat(fragments[n + 1..]);
  }

  /** `parseSse`: decode the bytes as they arrive, however they were cut, and parse the text as it comes out. */
  method ParseSse(c: Codec, fragments: seq<Octets>) returns (r: Parse)
    ensures r == ParseText(c, Received(Joined(fragments)))
  {
    var texts := DecodeStream(fragments);
    r := ParseFragments(c, texts);
  }

  /** Take in the decoded text piece by piece. */
  method ParseFragments(c: Codec, fragments: seq<string>) returns (r: Parse)
    ensures r == ParseText(c, Flat(fragments))
  {
    var buffer := "";
    r := Parse([], true);
    ghost var text := "";
    for n := 0 to |fragments|
      invariant text + Flat(fragments[n..]) == Flat(fragments)
      invariant r == ParseText(c, text) && r.ok
      invariant buffer == CutUp(text).rest
    {
      ParseMore(c, text, fragments[n]);
      FlatStep(text, fragments, n);
      r, buffer := Drain(c, r, buffer + fragments[n]);
      text := text + fragments[n];
      if !r.ok {
        ParseMore(c, text, Flat(fragments[n + 1..]));
        return;
      }
    }
    assert text + "" == text;
  }

  /** Parse the complete blocks of the buffer and keep the rest. */
  method Drain(c: Codec, before: Parse, text: string) returns (r: Parse, buffer: string)
    requires before.ok
    ensures r == ParseBlocks(c, before, CutUp(text).blocks)
    ensures r.ok ==> buffer == CutUp(text).rest
  {
    r, buffer := before, text;
    var boundary := Boundary(buffer, 0);
    while boundary < |buffer|
      invariant boundary == Boundary(buffer, 0) && r.ok
      invariant ParseBlocks(c, r, CutUp(buffer).blocks) == ParseBlocks(c, before, CutUp(text).blocks)
      invariant CutUp(buffer).rest == CutUp(text).rest
      decreases |buffer|
    {
      var block := buffer[..boundary];
      ghost var later := CutUp(buffer[boundary + 2..]).blocks;
      assert ([block] + later)[1..] == later;
      buffer := buffer[boundary + 2..];
      r := ParseBlock(c, r, block);
      if !r.ok {
        FailureStays(c, r, later);
        return;
      }
      boundary := Boundary(buffer, 0);
    }
  }

  // --------------------------------------------------------------- round trip

  lemma LinesCons(line: string, rest: string)
    requires '\n' !in line
    ensures Lines(line + "\n" + rest) == [line] + Lines(rest)
  {
    var text := line + "\n" + rest;
    var i := LineEnd(text);
    assert forall k | 0 <= k < |line| :: text[k] == line[k];
    assert text[|line|] == '\n';
    assert forall k | 0 <= k < i :: text[..i][k] == text[k];
    assert i == |line|;
    assert text[..i] == line && text[i + 1..] == rest;
  }

  lemma LinesOne(line: string)
    requires '\n' !in line
    ensures Lines(line) == [line]
  {
  }

  lemma LinesOfThree(id: string, event: string, data: string)
    requires '\n' !in id && '\n' !in event && '\n' !in data
    ensures Lines(id + "\n" + event + "\n" + data) == [id] + ([event] + [data])
  {
    LinesOne(data);
    LinesCons(event, data);
    LinesCons(id, event + "\n" + data);
    Regroup(id, event, data);
  }

  lemma Regroup(id: string, event: string, data: string)
    ensures id + "\n" + event + "\n" + data == id + "\n" + (event + "\n" + data)
  {
  }

  /** The number a run of decimal digits stands for. */
  function ValueOf(digits: string): int
  {
    if digits == "" then 0 else ValueOf(digits[..|digits| - 1]) * 10 + (digits[|digits| - 1] as int - '0' as int)
  }

  lemma {:induction false} DecimalIsRead(n: nat)
    ensures ValueOf(Decimal(n)) == n
    decreases n
  {
    var digits := Decimal(n);
    if n >= 10 {
      DecimalIsRead(n / 10);
      assert digits[..|digits| - 1] == Decimal(n / 10);
    } else {
      assert digits[..|digits| - 1] == "";
    }
  }

  /** A printed block names the event's number, its operation and its envelope, each on a line of its own. */
  lemma BlockFields(c: Codec, e: Envelope)
    requires Faithful(c) && '\n' !in e.operation
    ensures Lines(Block(c, e)) == ["id: " + Decimal(e.sequence), "event: " + e.operation, "data: " + c.show(e)]
    ensures ValueOf(Decimal(e.sequence)) == e.sequence
  {
    LinesOfThree(Head(e), "event: " + e.operation, "data: " + c.show(e));
    DecimalIsRead(e.sequence);
  }

  /** The data of a printed block is the printed envelope. */
  lemma BlockData(c: Codec, e: Envelope)
    requires Faithful(c) && '\n' !in e.operation
    ensures Data(Block(c, e)) == c.show(e)
  {
    var id, event, data := Head(e), "event: " + e.operation, "data: " + c.show(e);
    LinesOfThree(id, event, data);
    ThreeLines(id, event, data, c.show(e));
  }

  lemma ThreeLines(id: string, event: string, data: string, json: string)
    requires id != "" && id[0] == 'i' && event != "" && event[0] == 'e' && data == "data: " + json
    requires json != "" && json[0] == '{'
    ensures DataLines([id] + ([event] + [data])) == [json] && JoinLines([json]) == json
  {
    assert DataLines([]) == [];
    assert data[5..] == " " + json && (" " + json)[1..] == json;
    assert TrimStart(" " + json) == TrimStart(json) == json;
    assert "data:" <= data && [data][1..] == [];
    assert DataLines([data]) == [json];
    assert ([event] + [data])[1..] == [data];
    assert DataLines([event] + [data]) == [json];
    assert ([id] + ([event] + [data]))[1..] == [event] + [data];
  }

  /** A printed block ends at its own empty line. */
  lemma BlockEnds(a: string, b: string, d: string, rest: string)
    requires '\n' !in a && '\n' !in b && '\n' !in d && b != "" && d != ""
    ensures var block := a + "\n" + b + "\n" + d;
            Boundary(block + "\n\n" + rest, 0) == |block|
  {
    var block := a + "\n" + b + "\n" + d;
    var text := block + "\n\n" + rest;
    forall k: nat | k < |block|
      ensures !IsBoundary(text, k)
    {
      if k < |a| { assert text[k] == a[k]; }
      else if k == |a| { assert text[k + 1] == b[0]; }
      else if k <= |a| + |b| { assert text[k] == b[k - |a| - 1]; }
      else if k == |a| + 1 + |b| { assert text[k + 1] == d[0]; }
      else { assert text[k] == d[k - |a| - |b| - 2]; }
    }
    assert IsBoundary(text, |block|);
    BoundaryIs(text, |block|);
  }

  ghost predicate OneLine(es: seq<Envelope>)
  {
    forall i | 0 <= i < |es| :: '\n' !in es[i].operation
  }

  lemma CutPrinted(c: Codec, e: Envelope, rest: string)
    requires Faithful(c) && '\n' !in e.operation
    ensures CutUp(Block(c, e) + "\n\n" + rest) == Cut([Block(c, e)] + CutUp(rest).blocks, CutUp(rest).rest)
  {
    var text := Block(c, e) + "\n\n" + rest;
    BlockEnds(Head(e), "event: " + e.operation, "data: " + c.show(e), rest);
    assert text[..|Block(c, e)|] == Block(c, e) && text[|Block(c, e)| + 2..] == rest;
  }

  lemma ParsePrinted(c: Codec, before: Parse, e: Envelope, rest: seq<string>)
    requires Faithful(c) && '\n' !in e.operation && before.ok
    ensures ParseBlocks(c, before, [Block(c, e)] + rest) == ParseBlocks(c, Parse(before.envelopes + [e], true), rest)
  {
    BlockData(c, e);
    assert ([Block(c, e)] + rest)[1..] == rest;
  }

  function BlocksOf(c: Codec, es: seq<Envelope>): seq<string>
  {
    if es == [] then [] else [Block(c, es[0])] + BlocksOf(c, es[1..])
  }

  lemma {:induction false} PrintedCuts(c: Codec, es: seq<Envelope>)
    requires Faithful(c) && OneLine(es)
    ensures CutUp(TextOf(c, es)).blocks == BlocksOf(c, es)
    decreases |es|
  {
    if es != [] {
      CutPrinted(c, es[0], TextOf(c, es[1..]));
      PrintedCuts(c, es[1..]);
    }
  }

  lemma FirstThenRest(before: seq<Envelope>, es: seq<Envelope>)
    requires es != []
    ensures before + [es[0]] + es[1..] == before + es
  {
  }

  lemma {:induction false} BlocksParse(c: Codec, before: Parse, es: seq<Envelope>)
    requires Faithful(c) && OneLine(es) && before.ok
    ensures ParseBlocks(c, before, BlocksOf(c, es)) == Parse(before.envelopes + es, true)
    decreases |es|
  {
    if es == [] {
      assert before.envelopes + es == before.envelopes;
    } else {
      ParsePrinted(c, before, es[0], BlocksOf(c, es[1..]));
      BlocksParse(c, Parse(before.envelopes + [es[0]], true), es[1..]);
      FirstThenRest(before.envelopes, es);
    }
  }

  /** Parsing the printed text gives back the envelopes. */
  lemma PrintedParses(c: Codec, es: seq<Envelope>)
    requires Faithful(c) && OneLine(es)
    ensures ParseText(c, TextOf(c, es)) == Parse(es, true)
  {
    PrintedCuts(c, es);
    BlocksParse(c, Parse([], true), es);
    assert [] + es == es;
  }

  /** The bytes of the printed text decode to the text, which does not start with a byte order mark. */
  lemma PrintedBytes(c: Codec, es: seq<Envelope>)
    ensures Received(Encode(TextOf(c, es))) == TextOf(c, es)
  {
    EncodeThenDecode(TextOf(c, es));
    if es != [] {
      assert TextOf(c, es)[0] == 'i';
    }
  }
}
