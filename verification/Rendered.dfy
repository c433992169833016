/** A rendered read as text: blocks joined by blank lines and closed by a footer, and
    the reader that takes the text apart again. */
module Rendered {
  import opened Ids

  datatype Block = Block(header: string, body: seq<string>)

  const NEWLINE: string := "\n"
  const BLANK_LINE: string := "\n\n"

  // ----------------------------------------------------------------- writing

  function Joined(parts: seq<string>, separator: string): string {
    if parts == [] then ""
    else if |parts| == 1 then parts[0]
    else parts[0] + separator + Joined(parts[1..], separator)
  }

  function Text(block: Block): string { Joined([block.header] + block.body, NEWLINE) }

  function Texts(blocks: seq<Block>): (texts: seq<string>)
    ensures |texts| == |blocks|
  {
    seq(|blocks|, i requires 0 <= i < |blocks| => Text(blocks[i]))
  }

  /** Nothing kept renders to nothing; else the one footer closes the read. */
  function Render(blocks: seq<Block>, footer: string): string {
    if blocks == [] then "" else Joined(Texts(blocks) + [footer], BLANK_LINE)
  }

  // ----------------------------------------------------------------- reading

  /** Where the first blank line is. */
  function FirstBlank(text: string, at: nat): (i: Option<nat>)
    requires at <= |text|
    ensures i.Some? ==> at <= i.value && i.value + 1 < |text| && text[i.value] == '\n' && text[i.value + 1] == '\n'
    decreases |text| - at
  {
    if at + 1 >= |text| then None
    else if text[at] == '\n' && text[at + 1] == '\n' then Some(at)
    else FirstBlank(text, at + 1)
  }

  function SplitBlank(text: string): seq<string>
    decreases |text|
  {
    var i := FirstBlank(text, 0);
    if i.None? then [text] else [text[..i.value]] + SplitBlank(text[i.value + 2..])
  }

  /** Everything that ends a line for the reader, not the newline alone. */
  predicate EndsLine(c: char) {
    c in {'\n', '\r', '\U{0B}', '\U{0C}', '\U{1C}', '\U{1D}', '\U{1E}', '\U{85}', '\U{2028}', '\U{2029}'}
  }

  function FirstEnd(text: string, at: nat): (i: Option<nat>)
    requires at <= |text|
    ensures i.Some? ==> at <= i.value < |text| && EndsLine(text[i.value])
    decreases |text| - at
  {
    if at == |text| then None else if EndsLine(text[at]) then Some(at) else FirstEnd(text, at + 1)
  }

  function SplitLines(text: string): seq<string>
    decreases |text|
  {
    if text == "" then []
    else
      var i := FirstEnd(text, 0);
      if i.None? then [text]
      else if text[i.value] == '\r' && i.value + 1 < |text| && text[i.value + 1] == '\n' then
        [text[..i.value]] + SplitLines(text[i.value + 2..])
      else [text[..i.value]] + SplitLines(text[i.value + 1..])
  }

  /** Each part's first line names its body; a later part replaces an earlier one. */
  function Filed(parts: seq<string>): map<string, seq<string>> {
    if parts == [] then map[]
    else
      var before, lines := Filed(parts[..|parts| - 1]), SplitLines(parts[|parts| - 1]);
      if lines == [] then before else before[lines[0] := lines[1..]]
  }

  function Recovered(rendered: string): map<string, seq<string>> { Filed(SplitBlank(rendered)) }

  /** The reader, as its loop runs. */
  method Snapshot(rendered: string, headers: seq<string>) returns (bodies: Option<seq<seq<string>>>)
    ensures bodies.None? <==> exists k :: 0 <= k < |headers| && headers[k] !in Recovered(rendered)
    ensures bodies.Some? ==> |bodies.value| == |headers|
    ensures bodies.Some? ==> forall k :: 0 <= k < |headers| ==>
      headers[k] in Recovered(rendered) && bodies.value[k] == Recovered(rendered)[headers[k]]
  {
    var parts := SplitBlank(rendered);
    var split := map[];
    for i := 0 to |parts|
      invariant split == Filed(parts[..i])
    {
      assert parts[..i + 1][..i] == parts[..i];
      var lines := SplitLines(parts[i]);
      if lines != [] { split := split[lines[0] := lines[1..]]; }
    }
    assert parts[..|parts|] == parts;
    var found := [];
    for k := 0 to |headers|
      invariant |found| == k
      invariant forall j :: 0 <= j < k ==> headers[j] in split && found[j] == split[headers[j]]
    {
      if headers[k] !in split { return None; }
      found := found + [split[headers[k]]];
    }
    return Some(found);
  }

  // --------------------------------------------------------------- round trip

  /** A line a record may hold: something, and nothing that ends a line. */
  predicate CleanLine(line: string) { line != "" && forall c :: c in line ==> !EndsLine(c) }

  predicate CleanBlock(block: Block) { CleanLine(block.header) && forall line :: line in block.body ==> CleanLine(line) }

  /** A part that a blank line cannot be read into. */
  predicate Solid(part: string) {
    && part != "" && part[0] != '\n' && part[|part| - 1] != '\n'
    && forall i :: 0 <= i < |part| - 1 ==> !(part[i] == '\n' && part[i + 1] == '\n')
  }

  lemma {:induction false} NoBlankInside(part: string, rest: string, at: nat)
    requires Solid(part) && at <= |part|
    ensures FirstBlank(part + BLANK_LINE + rest, at) == Some(|part|)
    decreases |part| - at
  {
    var text := part + BLANK_LINE + rest;
    assert text[|part|] == '\n' && text[|part| + 1] == '\n' && forall i :: 0 <= i < |part| ==> text[i] == part[i];
    if at < |part| { NoBlankInside(part, rest, at + 1); }
  }

  lemma {:induction false} NoBlankAtAll(part: string, at: nat)
    requires Solid(part) && at <= |part|
    ensures FirstBlank(part, at) == None
    decreases |part| - at
  {
    if at < |part| { NoBlankAtAll(part, at + 1); }
  }

  lemma {:induction false} SplittingUndoesJoining(parts: seq<string>)
    requires parts != [] && forall i :: 0 <= i < |parts| ==> Solid(parts[i])
    ensures SplitBlank(Joined(parts, BLANK_LINE)) == parts
    decreases |parts|
  {
    hide Solid;
    if |parts| == 1 {
      NoBlankAtAll(parts[0], 0);
    } else {
      var rest := Joined(parts[1..], BLANK_LINE);
      NoBlankInside(parts[0], rest, 0);
      var text := parts[0] + BLANK_LINE + rest;
      assert text[..|parts[0]|] == parts[0] && text[|parts[0]| + 2..] == rest;
      SplittingUndoesJoining(parts[1..]);
    }
  }

  lemma {:induction false} NoEndInside(line: string, rest: string, at: nat)
    requires CleanLine(line) && at <= |line|
    ensures FirstEnd(line + NEWLINE + rest, at) == Some(|line|)
    ensures FirstEnd(line, at) == None
    decreases |line| - at
  {
    var text := line + NEWLINE + rest;
    assert text[|line|] == '\n' && forall i :: 0 <= i < |line| ==> text[i] == line[i];
    if at < |line| {
      assert line[at] in line;
      NoEndInside(line, rest, at + 1);
    }
  }

  lemma {:induction false} LinesComeBack(lines: seq<string>)
    requires lines != [] && forall i :: 0 <= i < |lines| ==> CleanLine(lines[i])
    ensures SplitLines(Joined(lines, NEWLINE)) == lines
    decreases |lines|
  {
    var first, rest := lines[0], Joined(lines[1..], NEWLINE);
    assert CleanLine(first);
    NoEndInside(first, rest, 0);
    if |lines| > 1 {
      var text := first + NEWLINE + rest;
      assert text[|first|] == '\n' && text[..|first|] == first && text[|first| + 1..] == rest;
      LinesComeBack(lines[1..]);
    }
  }

  predicate Unbroken(line: string) { forall c :: c in line ==> !EndsLine(c) }

  lemma {:induction false} NoEndBefore(text: string, at: nat)
    requires at <= |text|
    ensures FirstEnd(text, at).Some? ==> forall i :: at <= i < FirstEnd(text, at).value ==> !EndsLine(text[i])
    ensures FirstEnd(text, at).None? ==> forall i :: at <= i < |text| ==> !EndsLine(text[i])
    decreases |text| - at
  {
    if at < |text| && !EndsLine(text[at]) { NoEndBefore(text, at + 1); }
  }

  /** Whatever the text, no line the reader gives holds anything that ends a line. */
  lemma {:induction false} SplitIsUnbroken(text: string)
    ensures forall line :: line in SplitLines(text) ==> Unbroken(line)
    decreases |text|
  {
    hide EndsLine;
    if text != "" {
      var i := FirstEnd(text, 0);
      NoEndBefore(text, 0);
      if i.Some? {
        assert forall k :: 0 <= k < i.value ==> text[..i.value][k] == text[k];
        SplitIsUnbroken(text[i.value + 1..]);
        if i.value + 1 < |text| { SplitIsUnbroken(text[i.value + 2..]); }
      }
    }
  }

  /** Lines that hold something come back exactly when none of them holds anything that
      ends a line for the reader. */
  lemma LinesComeBackExactly(lines: seq<string>)
    requires lines != [] && forall i :: 0 <= i < |lines| ==> lines[i] != ""
    ensures SplitLines(Joined(lines, NEWLINE)) == lines <==> forall i :: 0 <= i < |lines| ==> CleanLine(lines[i])
  {
    hide EndsLine, SplitLines, Joined;
    SplitIsUnbroken(Joined(lines, NEWLINE));
    if forall i :: 0 <= i < |lines| ==> CleanLine(lines[i]) { LinesComeBack(lines); }
    if SplitLines(Joined(lines, NEWLINE)) == lines {
      forall i | 0 <= i < |lines| ensures CleanLine(lines[i]) { assert lines[i] in lines && Unbroken(lines[i]); }
    }
  }

  lemma {:induction false} JoinedIsSolid(lines: seq<string>)
    requires lines != [] && forall i :: 0 <= i < |lines| ==> CleanLine(lines[i])
    ensures Solid(Joined(lines, NEWLINE)) && Joined(lines, NEWLINE)[0] == lines[0][0]
    decreases |lines|
  {
    var first := lines[0];
    assert CleanLine(first);
    forall i | 0 <= i < |first| ensures first[i] != '\n' { assert first[i] in first; }
    if |lines| > 1 {
      JoinedIsSolid(lines[1..]);
      var rest := Joined(lines[1..], NEWLINE);
      assert CleanLine(lines[1]) && lines[1][0] in lines[1] && rest[0] != '\n';
      SolidAfterLine(first, rest);
    }
  }

  lemma SolidAfterLine(first: string, rest: string)
    requires first != "" && (forall i :: 0 <= i < |first| ==> first[i] != '\n') && Solid(rest)
    ensures Solid(first + NEWLINE + rest)
  {
    var text := first + NEWLINE + rest;
    assert text[|first|] == '\n' && |text| == |first| + 1 + |rest|;
    assert forall i :: 0 <= i < |first| ==> text[i] == first[i];
    assert forall i :: |first| < i < |text| ==> text[i] == rest[i - |first| - 1];
  }

  lemma BlockComesBack(block: Block)
    requires CleanBlock(block)
    ensures Solid(Text(block)) && SplitLines(Text(block)) == [block.header] + block.body
  {
    var lines := [block.header] + block.body;
    assert forall i :: 0 <= i < |lines| ==> CleanLine(lines[i]) by {
      hide CleanLine;
      assert forall i :: 0 < i < |lines| ==> lines[i] in block.body;
    }
    LinesComeBack(lines);
    JoinedIsSolid(lines);
  }

  /** The read as the reader sees it: the footer is a block without a body. */
  function Shown(blocks: seq<Block>, footer: string): seq<Block> { blocks + [Block(footer, [])] }

  /** What the last block under a header says. */
  function LastUnder(blocks: seq<Block>, header: string): Option<seq<string>> {
    if blocks == [] then None
    else if blocks[|blocks| - 1].header == header then Some(blocks[|blocks| - 1].body)
    else LastUnder(blocks[..|blocks| - 1], header)
  }

  lemma {:induction false} FilingReads(blocks: seq<Block>, header: string)
    requires forall i :: 0 <= i < |blocks| ==> CleanBlock(blocks[i])
    ensures header in Filed(Texts(blocks)) <==> LastUnder(blocks, header).Some?
    ensures header in Filed(Texts(blocks)) ==> Filed(Texts(blocks))[header] == LastUnder(blocks, header).value
  {
    if blocks != [] {
      var front, last := blocks[..|blocks| - 1], blocks[|blocks| - 1];
      assert Texts(blocks)[..|blocks| - 1] == Texts(front);
      BlockComesBack(last);
      assert ([last.header] + last.body)[1..] == last.body;
      hide CleanBlock, Text;
      FilingReads(front, header);
    }
  }

  /** For every clean read, the reader recovers under each header what the last block
      with that header says. */
  lemma ReaderRecovers(blocks: seq<Block>, footer: string, header: string)
    requires blocks != [] && CleanLine(footer) && forall i :: 0 <= i < |blocks| ==> CleanBlock(blocks[i])
    ensures header in Recovered(Render(blocks, footer)) <==> LastUnder(Shown(blocks, footer), header).Some?
    ensures header in Recovered(Render(blocks, footer)) ==>
      Recovered(Render(blocks, footer))[header] == LastUnder(Shown(blocks, footer), header).value
  {
    var shown := Shown(blocks, footer);
    assert CleanBlock(Block(footer, []));
    forall i | 0 <= i < |shown|
      ensures CleanBlock(shown[i]) && Solid(Texts(shown)[i])
    {
      BlockComesBack(shown[i]);
    }
    hide CleanBlock, CleanLine, Solid, Text;
    assert Text(Block(footer, [])) == footer by { FooterText(footer); }
    assert Texts(shown) == Texts(blocks) + [footer];
    SplittingUndoesJoining(Texts(shown));
    FilingReads(shown, header);
  }

  lemma FooterText(footer: string)
    ensures Text(Block(footer, [])) == footer
  {
    assert [footer] + [] == [footer];
  }

  /** A node's body comes back exactly when no later block says otherwise under its
      header. */
  lemma {:induction false} LastUnderExactly(blocks: seq<Block>, i: nat)
    requires i < |blocks|
    ensures LastUnder(blocks, blocks[i].header).Some?
    ensures LastUnder(blocks, blocks[i].header) == Some(blocks[i].body) <==>
      (exists j :: i <= j < |blocks| && blocks[j].header == blocks[i].header && blocks[j].body == blocks[i].body
         && forall k :: j < k < |blocks| ==> blocks[k].header != blocks[i].header)
    decreases |blocks|
  {
    var front, last := blocks[..|blocks| - 1], blocks[|blocks| - 1];
    if last.header != blocks[i].header {
      LastUnderExactly(front, i);
      assert forall j :: 0 <= j < |front| ==> front[j] == blocks[j];
    }
  }

  predicate DistinctHeaders(blocks: seq<Block>) {
    forall i, j :: 0 <= i < j < |blocks| ==> blocks[i].header != blocks[j].header
  }

  /** Rendering a read and taking it apart gives back every node's exact lines, when
      headers differ from one another and from the footer. */
  lemma RenderedReadRoundTrips(blocks: seq<Block>, footer: string, i: nat)
    requires i < |blocks| && CleanLine(footer) && (forall j :: 0 <= j < |blocks| ==> CleanBlock(blocks[j]))
    requires DistinctHeaders(Shown(blocks, footer))
    ensures blocks[i].header in Recovered(Render(blocks, footer))
    ensures Recovered(Render(blocks, footer))[blocks[i].header] == blocks[i].body
  {
    hide CleanBlock, CleanLine, Render, Recovered;
    var shown := Shown(blocks, footer);
    ReaderRecovers(blocks, footer, blocks[i].header);
    LastUnderExactly(shown, i);
    assert shown[i] == blocks[i];
  }

  lemma {:induction false} FiledIsUnbroken(parts: seq<string>, header: string)
    requires header in Filed(parts)
    ensures Unbroken(header) && forall line :: line in Filed(parts)[header] ==> Unbroken(line)
  {
    hide Unbroken, SplitLines;
    if parts != [] {
      var front, lines := parts[..|parts| - 1], SplitLines(parts[|parts| - 1]);
      SplitIsUnbroken(parts[|parts| - 1]);
      if lines != [] && lines[0] == header {
        assert lines[0] in lines && forall line :: line in lines[1..] ==> line in lines;
      } else {
        FiledIsUnbroken(front, header);
      }
    }
  }

  /** The block as the reader has it. */
  predicate ComesBack(block: Block, rendered: string) {
    block.header in Recovered(rendered) && Recovered(rendered)[block.header] == block.body
  }

  /** Of a read whose headers tell its nodes apart, every node's exact lines come back
      exactly when no line of it holds anything that ends a line for the reader. */
  lemma ReadComesBackExactly(blocks: seq<Block>, footer: string)
    requires CleanLine(footer) && DistinctHeaders(Shown(blocks, footer))
    requires forall i :: 0 <= i < |blocks| ==> blocks[i].header != "" && forall line :: line in blocks[i].body ==> line != ""
    ensures (forall i :: 0 <= i < |blocks| ==> ComesBack(blocks[i], Render(blocks, footer))) <==>
            forall i :: 0 <= i < |blocks| ==> CleanBlock(blocks[i])
  {
    hide EndsLine, Render, Filed, SplitBlank, DistinctHeaders;
    if forall i :: 0 <= i < |blocks| ==> CleanBlock(blocks[i]) {
      forall i | 0 <= i < |blocks| ensures ComesBack(blocks[i], Render(blocks, footer)) {
        RenderedReadRoundTrips(blocks, footer, i);
      }
    }
    if forall i :: 0 <= i < |blocks| ==> ComesBack(blocks[i], Render(blocks, footer)) {
      forall i | 0 <= i < |blocks| ensures CleanBlock(blocks[i]) {
        assert ComesBack(blocks[i], Render(blocks, footer));
        FiledIsUnbroken(SplitBlank(Render(blocks, footer)), blocks[i].header);
      }
    }
  }

  /** Which of two equal headers is believed is decided by the order: of two nodes
      rendered alike but for their lines, the reader sees the second one's twice. */
  lemma EqualHeadersOverwrite(a: Block, b: Block, footer: string)
    requires CleanBlock(a) && CleanBlock(b) && CleanLine(footer) && a.header == b.header != footer
    ensures a.header in Recovered(Render([a, b], footer))
    ensures Recovered(Render([a, b], footer))[a.header] == b.body
  {
    hide CleanBlock, CleanLine, Render, Recovered;
    ReaderRecovers([a, b], footer, a.header);
    var shown := Shown([a, b], footer);
    assert shown == [a, b, Block(footer, [])] && shown[..2] == [a, b];
  }

  lemma SeparatorSplitsLine()
    ensures SplitLines("a: b\U{2028}c") == ["a: b", "c"]
  {
    var text := "a: b\U{2028}c";
    assert text[4] == '\U{2028}' && text[..4] == "a: b" && text[5..] == "c";
    assert !EndsLine('a') && !EndsLine(':') && !EndsLine(' ') && !EndsLine('b') && !EndsLine('c');
    assert FirstEnd(text, 4) == Some(4);
    assert FirstEnd(text, 2) == Some(4);
    assert FirstEnd(text, 0) == Some(4);
    assert FirstEnd("c", 0) == None;
  }

  lemma LineFollows(header: string, rest: string)
    requires CleanLine(header)
    ensures SplitLines(header + NEWLINE + rest) == [header] + SplitLines(rest)
  {
    NoEndInside(header, rest, 0);
    var text := header + NEWLINE + rest;
    assert text[|header|] == '\n' && text[..|header|] == header && text[|header| + 1..] == rest;
  }

  function Separated(): Block { Block("n", ["a: b\U{2028}c"]) }

  lemma SeparatedText()
    ensures Text(Separated()) == "n" + NEWLINE + "a: b\U{2028}c" && Solid(Text(Separated())) && Solid("f")
  {
    var lines := ["n"] + ["a: b\U{2028}c"];
    assert lines[1..] == ["a: b\U{2028}c"] && Joined(lines[1..], NEWLINE) == "a: b\U{2028}c";
    SolidAfterLine("n", "a: b\U{2028}c");
  }

  /** The record layer refuses line feeds and carriage returns only: read back from a
      rendered read, a fact holding a line separator is two lines. */
  lemma SeparatorSplitsAFact()
    ensures "n" in Recovered(Render([Separated()], "f"))
    ensures Recovered(Render([Separated()], "f"))["n"] == ["a: b", "c"] != Separated().body
  {
    hide EndsLine, Solid, SplitBlank;
    SeparatedText();
    SeparatorSplitsLine();
    assert CleanLine("n") && CleanLine("f") by { PlainLetters(); }
    LineFollows("n", "a: b\U{2028}c");
    var text := Text(Separated());
    var parts := [text] + ["f"];
    assert Texts([Separated()]) == [text];
    SplittingUndoesJoining(parts);
    LinesComeBack(["f"]);
    assert parts[..1] == [text] && [text][..0] == [];
    assert SplitLines(text)[1..] == ["a: b", "c"];
    assert Filed([text]) == map["n" := ["a: b", "c"]];
    assert Filed(parts) == Filed([text])["f" := []];
  }

  lemma PlainLetters()
    ensures !EndsLine('n') && !EndsLine('f')
  {
  }
}
