/**
 * The checklist codec: `renderCheckList` writes a label-grouped checklist in a fixed
 * line-oriented markdown dialect, and `parseCheckList` reads that dialect back into a
 * map from label to (item name -> checked).
 *
 * `parseCheckList` is modelled as written: a heading only moves the current label and
 * never creates that label's bucket, so the first item line dereferences a missing
 * bucket and throws. The corrected reading, in which a heading creates its bucket, is
 * kept apart as `ParseCheckListCorrected`.
 */
module Markdown {
  import opened Wrappers
  import opened Text

  const HeadingPrefix: string := "#### "
  const CheckedPrefix: string := "- [x] "
  const UncheckedPrefix: string := "- [ ] "
  /**
   * The sentinel first line that marks a body as generated, written in pieces only so
   * that the verifier can look inside it.
   */
  const PrefixComment: string :=
    "<!-- Generated by " + "kasaikou/self-review-" + "checklist-actions, " + "DO NOT EDIT. -->"

  datatype Item = Item(name: string, checked: bool)
  datatype Section = Section(labelName: string, list: seq<Item>)
  /** `markdownContents`: sections in the order they are rendered. */
  type Contents = seq<Section>
  /** What the parser returns: label -> item name -> checked. */
  type CheckList = map<string, map<string, bool>>

  // ---------------------------------------------------------------------------
  // Rendering

  function ItemLine(item: Item): string {
    (if item.checked then CheckedPrefix else UncheckedPrefix) + item.name
  }

  /** The item lines of a section, one per item, in input order. */
  function ItemLines(items: seq<Item>): (r: seq<string>)
    ensures |r| == |items|
    ensures forall k :: 0 <= k < |items| ==> r[k] == ItemLine(items[k])
    decreases |items|
  {
    if items == [] then [] else ItemLines(items[..|items| - 1]) + [ItemLine(items[|items| - 1])]
  }

  /** A section: its heading, a blank line, its items and a trailing blank line. */
  function SectionLines(s: Section): seq<string> {
    [HeadingPrefix + s.labelName, ""] + ItemLines(s.list) + [""]
  }

  function SectionsLines(contents: Contents): seq<string>
    decreases |contents|
  {
    if contents == [] then []
    else SectionsLines(contents[..|contents| - 1]) + SectionLines(contents[|contents| - 1])
  }

  /** Every line of the rendered checklist, the sentinel and a blank line first. */
  function RenderLines(contents: Contents): seq<string> {
    [PrefixComment, ""] + SectionsLines(contents)
  }

  /** The markdown `renderCheckList` produces: every line followed by a line feed. */
  function Render(contents: Contents): string {
    Terminated(RenderLines(contents))
  }

  /** `hasGeneratedText` read as "starts with the sentinel"; this reading is an assumption. */
  predicate StartsWithSentinel(body: string) {
    StartsWith(body, PrefixComment)
  }

  /** The imperative renderer: string accumulation in two nested loops. */
  method RenderCheckList(contents: Contents) returns (markdown: string)
    ensures markdown == Render(contents)
    ensures StartsWith(markdown, PrefixComment + "\n\n")
  {
    markdown := "";
    markdown := markdown + PrefixComment + "\n\n";
    assert markdown == Render(contents[..0]) by {
      RenderStartsWithSentinel(contents[..0]);
    }
    for i := 0 to |contents|
      invariant markdown == Render(contents[..i])
    {
      var content := contents[i];
      ghost var before := markdown;
      var heading := HeadingPrefix + content.labelName + "\n\n";
      markdown := markdown + heading;
      for j := 0 to |content.list|
        invariant markdown == before + heading + Terminated(ItemLines(content.list[..j]))
      {
        var checkbox := content.list[j];
        var line := (if checkbox.checked then CheckedPrefix else UncheckedPrefix) + checkbox.name + "\n";
        ItemStep(before + heading, content.list, j);
        markdown := markdown + line;
      }
      markdown := markdown + "\n";
      RenderSectionStep(contents, i);
    }
    assert contents[..|contents|] == contents;
    RenderStartsWithSentinel(contents);
  }

  /** One turn of the inner loop, in the shape the loop builds its text. */
  lemma ItemStep(head: string, items: seq<Item>, j: nat)
    requires j < |items|
    ensures head + Terminated(ItemLines(items[..j + 1]))
         == head + Terminated(ItemLines(items[..j])) + (ItemLine(items[j]) + "\n")
  {
    ItemTextAppend(items[..j], items[j]);
    assert items[..j] + [items[j]] == items[..j + 1];
  }

  /** One turn of the outer loop, in the shape the loop builds its text. */
  lemma RenderSectionStep(contents: Contents, i: nat)
    requires i < |contents|
    ensures Render(contents[..i + 1])
         == Render(contents[..i]) + (HeadingPrefix + contents[i].labelName + "\n\n")
            + Terminated(ItemLines(contents[i].list[..|contents[i].list|])) + "\n"
  {
    SectionText(contents[i]);
    RenderAppend(contents[..i], contents[i]);
    assert contents[..i] + [contents[i]] == contents[..i + 1];
    assert contents[i].list[..|contents[i].list|] == contents[i].list;
  }

  /** Appending an item appends exactly its line and a line feed. */
  lemma {:induction false} ItemTextAppend(items: seq<Item>, item: Item)
    ensures Terminated(ItemLines(items + [item])) == Terminated(ItemLines(items)) + ItemLine(item) + "\n"
  {
    assert (items + [item])[..|items|] == items;
    TerminatedAppend(ItemLines(items), [ItemLine(item)]);
  }

  /** A section contributes its heading, a blank line, its item lines and one more line feed. */
  lemma {:induction false} SectionText(s: Section)
    ensures Terminated(SectionLines(s))
         == HeadingPrefix + s.labelName + "\n\n" + Terminated(ItemLines(s.list)) + "\n"
  {
    var head := [HeadingPrefix + s.labelName, ""];
    TerminatedAppend(head + ItemLines(s.list), [""]);
    TerminatedAppend(head, ItemLines(s.list));
    assert Terminated(head) == HeadingPrefix + s.labelName + "\n" + "" + "\n";
  }

  /** Sections are rendered in input order, each after everything before it. */
  lemma {:induction false} RenderAppend(contents: Contents, s: Section)
    ensures Render(contents + [s]) == Render(contents) + Terminated(SectionLines(s))
  {
    assert (contents + [s])[..|contents|] == contents;
    assert SectionsLines(contents + [s]) == SectionsLines(contents) + SectionLines(s);
    assert RenderLines(contents + [s]) == RenderLines(contents) + SectionLines(s);
    TerminatedAppend(RenderLines(contents), SectionLines(s));
  }

  /** Output starts with the sentinel and a blank line; with no sections that is all of it. */
  lemma {:induction false} RenderStartsWithSentinel(contents: Contents)
    ensures StartsWith(Render(contents), PrefixComment + "\n\n")
    ensures StartsWithSentinel(Render(contents))
    ensures contents == [] ==> Render(contents) == PrefixComment + "\n\n"
  {
    var head := PrefixComment + "\n\n";
    TerminatedAppend([PrefixComment, ""], SectionsLines(contents));
    assert Terminated([PrefixComment, ""]) == head;
    assert Render(contents) == head + Terminated(SectionsLines(contents));
    assert Render(contents)[..|head|] == head;
    assert Render(contents)[..|PrefixComment|] == head[..|PrefixComment|] == PrefixComment;
  }

  // ---------------------------------------------------------------------------
  // Parsing

  /** How `parseCheckList` classifies a line, by its three prefixes tried in order. */
  datatype LineKind = Heading(text: string) | ItemOf(name: string, checked: bool) | Ignored

  function Classify(line: string): (k: LineKind)
    ensures k.Heading? <==> StartsWith(line, HeadingPrefix)
    ensures k.Heading? ==> line == HeadingPrefix + k.text
    ensures k.ItemOf? ==> line == (if k.checked then CheckedPrefix else UncheckedPrefix) + k.name
    ensures k.Ignored? <==>
      !StartsWith(line, HeadingPrefix) && !StartsWith(line, CheckedPrefix) && !StartsWith(line, UncheckedPrefix)
  {
    if StartsWith(line, HeadingPrefix) then Heading(line[|HeadingPrefix|..])
    else if StartsWith(line, CheckedPrefix) then ItemOf(line[|CheckedPrefix|..], true)
    else if StartsWith(line, UncheckedPrefix) then ItemOf(line[|UncheckedPrefix|..], false)
    else Ignored
  }

  /** The TypeError thrown when an item line finds no bucket for the current label. */
  datatype ParseError = NoBucket(currentLabel: string)

  /** The loop state: `currentLabel` and `resultMap`. */
  datatype ParseState = ParseState(currentLabel: string, resultMap: CheckList)

  /** The parser as written, or with the heading creating its bucket. */
  datatype Variant = AsWritten | Corrected

  const Start := ParseState("", map[])

  /** One iteration of the parse loop. */
  function Step(v: Variant, st: ParseState, line: string): Result<ParseState, ParseError> {
    match Classify(line)
    case Heading(newLabel) =>
      if v == AsWritten || newLabel in st.resultMap then Success(ParseState(newLabel, st.resultMap))
      else Success(ParseState(newLabel, st.resultMap[newLabel := map[]]))
    case ItemOf(name, checked) =>
      if st.currentLabel in st.resultMap then
        var todoMap := st.resultMap[st.currentLabel][name := checked];
        Success(st.(resultMap := st.resultMap[st.currentLabel := todoMap]))
      else Failure(NoBucket(st.currentLabel))
    case Ignored => Success(st)
  }

  /** The parse loop over the remaining lines, stopping at the first thrown error. */
  function Run(v: Variant, lines: seq<string>, st: ParseState): Result<ParseState, ParseError>
    decreases |lines|
  {
    if lines == [] then Success(st)
    else
      match Step(v, st, lines[0])
      case Success(next) => Run(v, lines[1..], next)
      case Failure(e) => Failure(e)
  }

  function Parse(v: Variant, markdown: string): Result<CheckList, ParseError> {
    match Run(v, SplitLines(markdown), Start)
    case Success(st) => Success(st.resultMap)
    case Failure(e) => Failure(e)
  }

  predicate IsItemLine(line: string) {
    Classify(line).ItemOf?
  }

  predicate NoItemLine(lines: seq<string>) {
    forall k :: 0 <= k < |lines| ==> !IsItemLine(lines[k])
  }

  /**
   * `parseCheckList` as written. It fails exactly when some line is an item line, and
   * when it succeeds the map is empty.
   */
  method ParseCheckList(markdown: string) returns (r: Result<CheckList, ParseError>)
    ensures r == Parse(AsWritten, markdown)
    ensures r.Success? <==> NoItemLine(SplitLines(markdown))
    ensures r.Success? ==> r.value == map[]
  {
    var lines := SplitLines(markdown);
    var currentLabel := "";
    var resultMap: CheckList := map[];
    AsWrittenOutcome(lines, "");
    for i := 0 to |lines|
      invariant Run(AsWritten, lines, Start) == Run(AsWritten, lines[i..], ParseState(currentLabel, resultMap))
    {
      var line := lines[i];
      assert lines[i..][0] == line && lines[i..][1..] == lines[i + 1..];
      ghost var st := ParseState(currentLabel, resultMap);
      assert Run(AsWritten, lines[i..], st) == match Step(AsWritten, st, line)
        case Success(next) => Run(AsWritten, lines[i + 1..], next)
        case Failure(e) => Failure(e);
      if StartsWith(line, HeadingPrefix) {
        currentLabel := line[|HeadingPrefix|..];
      } else if StartsWith(line, CheckedPrefix) {
        if currentLabel !in resultMap {
          assert !NoItemLine(lines) by { assert IsItemLine(lines[i]); }
          return Failure(NoBucket(currentLabel));
        }
        var todoMap := resultMap[currentLabel];
        todoMap := todoMap[line[|CheckedPrefix|..] := true];
        resultMap := resultMap[currentLabel := todoMap];
      } else if StartsWith(line, UncheckedPrefix) {
        if currentLabel !in resultMap {
          assert !NoItemLine(lines) by { assert IsItemLine(lines[i]); }
          return Failure(NoBucket(currentLabel));
        }
        var todoMap := resultMap[currentLabel];
        todoMap := todoMap[line[|UncheckedPrefix|..] := false];
        resultMap := resultMap[currentLabel := todoMap];
      }
    }
    r := Success(resultMap);
  }

  /** As written, no bucket is ever created: the run fails iff an item line occurs, else the map stays empty. */
  lemma {:induction false} AsWrittenOutcome(lines: seq<string>, current: string)
    ensures Run(AsWritten, lines, ParseState(current, map[])).Success?
        <==> NoItemLine(lines)
    ensures Run(AsWritten, lines, ParseState(current, map[])).Success? ==>
              Run(AsWritten, lines, ParseState(current, map[])).value.resultMap == map[]
    decreases |lines|
  {
    if lines != [] {
      var st := ParseState(current, map[]);
      match Classify(lines[0])
      case Heading(l) =>
        AsWrittenOutcome(lines[1..], l);
        AllLinesShift(lines);
      case ItemOf(_, _) =>
      case Ignored =>
        AsWrittenOutcome(lines[1..], current);
        AllLinesShift(lines);
    }
  }

  lemma AllLinesShift(lines: seq<string>)
    requires lines != [] && !IsItemLine(lines[0])
    ensures NoItemLine(lines) <==> NoItemLine(lines[1..])
  {
    if NoItemLine(lines[1..]) {
      forall k | 0 < k < |lines| ensures !IsItemLine(lines[k]) {
        assert lines[k] == lines[1..][k - 1];
      }
    }
  }

  // ---------------------------------------------------------------------------
  // Facts about single lines

  /** A line that starts with an item prefix is an item line, whatever follows the prefix. */
  lemma ItemPrefixLine(p: string, rest: string)
    requires p == CheckedPrefix || p == UncheckedPrefix
    ensures IsItemLine(p + rest)
  {
    var line := p + rest;
    assert line[..|p|] == p;
    assert line[..|HeadingPrefix|][0] == '-' != HeadingPrefix[0];
  }

  /** A heading line opens exactly the label written after the prefix. */
  lemma ClassifyHeadingLine(text: string)
    ensures Classify(HeadingPrefix + text) == Heading(text)
  {
    var line := HeadingPrefix + text;
    assert line[..|HeadingPrefix|] == HeadingPrefix;
    var k := Classify(line);
    assert line[|HeadingPrefix|..] == text;
    assert (HeadingPrefix + k.text)[|HeadingPrefix|..] == k.text;
  }

  /** A rendered item line is read back as that item. */
  lemma ClassifyItemLine(item: Item)
    ensures Classify(ItemLine(item)) == ItemOf(item.name, item.checked)
  {
    var p := if item.checked then CheckedPrefix else UncheckedPrefix;
    var line := ItemLine(item);
    ItemPrefixLine(p, item.name);
    var k := Classify(line);
    var q := if k.checked then CheckedPrefix else UncheckedPrefix;
    assert line == q + k.name;
    assert |p| == |q| == 6;
    assert line[6..] == k.name by { assert (q + k.name)[6..] == k.name; }
    assert line[6..] == item.name by { assert (p + item.name)[6..] == item.name; }
    assert line[3] == q[3] == (if k.checked then 'x' else ' ');
    assert line[3] == p[3] == (if item.checked then 'x' else ' ');
  }

  lemma ClassifyScaffolding()
    ensures Classify("") == Ignored
    ensures Classify(PrefixComment) == Ignored
  {
    assert !StartsWith(PrefixComment, HeadingPrefix) by { assert HeadingPrefix[0] == '#'; }
    assert !StartsWith(PrefixComment, CheckedPrefix) by { assert CheckedPrefix[0] == '-'; }
    assert !StartsWith(PrefixComment, UncheckedPrefix) by { assert UncheckedPrefix[0] == '-'; }
  }

  /** As written, a heading line only changes the current label and never adds an entry. */
  lemma HeadingOnlyMovesLabel(st: ParseState, text: string)
    ensures Step(AsWritten, st, HeadingPrefix + text) == Success(ParseState(text, st.resultMap))
  {
    ClassifyHeadingLine(text);
  }

  // ---------------------------------------------------------------------------
  // The defect: as written, the render of any checklist with an item does not parse

  /** An item line after the first line of terminated text is still an item line after `split('\n')`. */
  lemma ItemLineSurvivesSplit(lines: seq<string>, k: nat, p: string, rest: string) returns (m: nat)
    requires 1 <= k < |lines|
    requires p == CheckedPrefix || p == UncheckedPrefix
    requires lines[k] == p + rest
    ensures m < |SplitLines(Terminated(lines))| && IsItemLine(SplitLines(Terminated(lines))[m])
  {
    var head, x, tail := Terminated(lines[..k - 1]), lines[k - 1], Terminated(lines[k + 1..]);
    var whole := Terminated(lines);
    TerminatedAround(lines, k);
    var a, c := head + x, rest + "\n" + tail;
    assert whole == a + "\n" + (p + c) by {
      assert whole == head + (x + "\n" + ((p + rest) + "\n" + tail));
    }
    SplitAtLineFeed(a, p + c);
    SplitFirstLine(p, c);
    ItemPrefixLine(p, SplitLines(c)[0]);
    var left, right := SplitLines(a), SplitLines(p + c);
    assert SplitLines(whole) == left + right;
    assert (left + right)[|left|] == right[0];
    m := |left|;
  }

  lemma TerminatedAround(lines: seq<string>, k: nat)
    requires 1 <= k < |lines|
    ensures Terminated(lines)
         == Terminated(lines[..k - 1]) + (lines[k - 1] + "\n" + (lines[k] + "\n" + Terminated(lines[k + 1..])))
  {
    var before, x, after := lines[..k - 1], lines[k - 1], lines[k..];
    assert lines == before + ([x] + after);
    TerminatedAppend(before, [x] + after);
    TerminatedCons(x, after);
    TerminatedCons(lines[k], lines[k + 1..]);
    assert after == [lines[k]] + lines[k + 1..];
  }

  lemma TerminatedCons(x: string, rest: seq<string>)
    ensures Terminated([x] + rest) == x + "\n" + Terminated(rest)
  {
    assert ([x] + rest)[1..] == rest;
  }

  lemma {:induction false} SectionsLinesHaveItem(contents: Contents, i: nat, j: nat)
    requires i < |contents| && j < |contents[i].list|
    ensures exists k :: 0 <= k < |SectionsLines(contents)| && SectionsLines(contents)[k] == ItemLine(contents[i].list[j])
    decreases |contents|
  {
    var init := contents[..|contents| - 1];
    var last := contents[|contents| - 1];
    if i == |contents| - 1 {
      var k := |SectionsLines(init)| + 2 + j;
      assert SectionsLines(contents)[k] == SectionLines(last)[2 + j];
    } else {
      SectionsLinesHaveItem(init, i, j);
      var k :| 0 <= k < |SectionsLines(init)| && SectionsLines(init)[k] == ItemLine(init[i].list[j]);
      assert SectionsLines(contents)[k] == SectionsLines(init)[k];
    }
  }

  /** As written, parsing what was rendered fails as soon as the checklist holds one item. */
  lemma RenderedItemBreaksParse(contents: Contents, i: nat, j: nat)
    requires i < |contents| && j < |contents[i].list|
    ensures Parse(AsWritten, Render(contents)).Failure?
  {
    SectionsLinesHaveItem(contents, i, j);
    var k :| 0 <= k < |SectionsLines(contents)| && SectionsLines(contents)[k] == ItemLine(contents[i].list[j]);
    var item := contents[i].list[j];
    var p := if item.checked then CheckedPrefix else UncheckedPrefix;
    assert RenderLines(contents)[k + 2] == p + item.name;
    var m := ItemLineSurvivesSplit(RenderLines(contents), k + 2, p, item.name);
    AsWrittenOutcome(SplitLines(Render(contents)), "");
    assert !NoItemLine(SplitLines(Render(contents)));
  }

  // ---------------------------------------------------------------------------
  // The corrected parser: a heading creates its bucket when absent

  /** An item line before any heading line: the one input the corrected parser rejects. */
  predicate OrphanItemAt(lines: seq<string>, k: int) {
    0 <= k < |lines| && IsItemLine(lines[k]) && forall j :: 0 <= j < k ==> !Classify(lines[j]).Heading?
  }

  predicate HasOrphanItem(lines: seq<string>) {
    exists k :: 0 <= k < |lines| && OrphanItemAt(lines, k)
  }

  /** `parseCheckList` with the evidently intended get-or-create of each heading's bucket. */
  function ParseCheckListCorrected(markdown: string): (r: Result<CheckList, ParseError>)
    ensures r.Failure? <==> HasOrphanItem(SplitLines(markdown))
  {
    CorrectedFailure(SplitLines(markdown), Start);
    Parse(Corrected, markdown)
  }

  lemma OrphanShift(lines: seq<string>)
    requires lines != [] && Classify(lines[0]).Ignored?
    ensures HasOrphanItem(lines) <==> HasOrphanItem(lines[1..])
  {
    var rest := lines[1..];
    if HasOrphanItem(lines) {
      var k :| 0 <= k < |lines| && OrphanItemAt(lines, k);
      assert k != 0 by { assert !IsItemLine(lines[0]); }
      assert rest[k - 1] == lines[k];
      forall j | 0 <= j < k - 1 ensures !Classify(rest[j]).Heading? {
        assert rest[j] == lines[j + 1];
      }
      assert OrphanItemAt(rest, k - 1);
    }
    if HasOrphanItem(rest) {
      var k :| 0 <= k < |rest| && OrphanItemAt(rest, k);
      assert lines[k + 1] == rest[k];
      forall j | 0 <= j < k + 1 ensures !Classify(lines[j]).Heading? {
        if j > 0 { assert lines[j] == rest[j - 1]; }
      }
      assert OrphanItemAt(lines, k + 1);
    }
  }

  /** The corrected run fails exactly on an item line met while the current label has no bucket. */
  lemma {:induction false} CorrectedFailure(lines: seq<string>, st: ParseState)
    ensures Run(Corrected, lines, st).Failure? <==> st.currentLabel !in st.resultMap && HasOrphanItem(lines)
    decreases |lines|
  {
    if lines == [] {
      assert !HasOrphanItem(lines);
    } else {
      match Classify(lines[0])
      case Heading(text) =>
        var next := Step(Corrected, st, lines[0]).value;
        CorrectedFailure(lines[1..], next);
        forall k | 0 <= k < |lines| ensures !OrphanItemAt(lines, k) {
          if k > 0 { assert Classify(lines[0]).Heading?; }
        }
      case ItemOf(_, _) =>
        if st.currentLabel in st.resultMap {
          CorrectedFailure(lines[1..], Step(Corrected, st, lines[0]).value);
        } else {
          assert OrphanItemAt(lines, 0);
        }
      case Ignored =>
        CorrectedFailure(lines[1..], st);
        OrphanShift(lines);
    }
  }

  // ---------------------------------------------------------------------------
  // Round trip of the corrected parser

  /** Labels are distinct, and no label or item name holds a line feed. */
  predicate WellFormed(contents: Contents) {
    && DistinctLabels(contents)
    && (forall i :: 0 <= i < |contents| ==> IsLine(contents[i].labelName))
    && (forall i, j :: 0 <= i < |contents| && 0 <= j < |contents[i].list| ==> IsLine(contents[i].list[j].name))
  }

  predicate DistinctLabels(contents: Contents) {
    forall i, j :: 0 <= i < j < |contents| ==> contents[i].labelName != contents[j].labelName
  }

  /** The item map a section stands for; a later item with the same name wins, as with `Map.set`. */
  function ItemsMap(items: seq<Item>): map<string, bool>
    decreases |items|
  {
    if items == [] then map[]
    else ItemsMap(items[..|items| - 1])[items[|items| - 1].name := items[|items| - 1].checked]
  }

  /** The check list the contents stand for. */
  function ToCheckList(contents: Contents): CheckList
    decreases |contents|
  {
    if contents == [] then map[]
    else
      var last := contents[|contents| - 1];
      ToCheckList(contents[..|contents| - 1])[last.labelName := ItemsMap(last.list)]
  }

  lemma {:induction false} LabelAbsent(contents: Contents, l: string)
    requires forall i :: 0 <= i < |contents| ==> contents[i].labelName != l
    ensures l !in ToCheckList(contents)
    decreases |contents|
  {
    if contents != [] {
      LabelAbsent(contents[..|contents| - 1], l);
    }
  }

  predicate AllLines(lines: seq<string>) {
    forall k :: 0 <= k < |lines| ==> IsLine(lines[k])
  }

  lemma {:induction false} SectionsLinesAreLines(contents: Contents)
    requires WellFormed(contents)
    ensures AllLines(SectionsLines(contents))
    decreases |contents|
  {
    if contents != [] {
      var init, last := contents[..|contents| - 1], contents[|contents| - 1];
      SectionsLinesAreLines(init);
      assert IsLine(HeadingPrefix + last.labelName);
      assert AllLines(ItemLines(last.list)) by {
        forall k | 0 <= k < |last.list| ensures IsLine(ItemLines(last.list)[k]) {
          assert IsLine(last.list[k].name);
        }
      }
      var a, b := SectionsLines(init), SectionLines(last);
      assert AllLines(b);
      forall k | 0 <= k < |a + b| ensures IsLine((a + b)[k]) {
        if k >= |a| { assert (a + b)[k] == b[k - |a|]; }
      }
    }
  }

  /** Splitting the render of well-formed contents gives back its lines and one empty line. */
  lemma SplitRender(contents: Contents)
    requires WellFormed(contents)
    ensures SplitLines(Render(contents)) == RenderLines(contents) + [""]
  {
    var lines := RenderLines(contents);
    SectionsLinesAreLines(contents);
    assert AllLines(lines + [""]) by {
      var rest := SectionsLines(contents);
      forall k | 0 <= k < |lines + [""]| ensures IsLine((lines + [""])[k]) {
        if 2 <= k < |lines| { assert lines[k] == rest[k - 2]; }
      }
    }
    TerminatedIsJoin(lines);
    SplitJoin(lines + [""]);
  }

  lemma {:induction false} RunAppend(v: Variant, a: seq<string>, b: seq<string>, st: ParseState)
    ensures Run(v, a + b, st) == match Run(v, a, st)
      case Success(mid) => Run(v, b, mid)
      case Failure(e) => Failure(e)
    decreases |a|
  {
    if a == [] {
      assert a + b == b;
    } else {
      assert (a + b)[0] == a[0] && (a + b)[1..] == a[1..] + b;
      match Step(v, st, a[0])
      case Success(next) => RunAppend(v, a[1..], b, next);
      case Failure(_) =>
    }
  }

  lemma {:induction false} RunItems(items: seq<Item>, l: string, m: CheckList)
    requires l in m && m[l] == map[]
    ensures Run(Corrected, ItemLines(items), ParseState(l, m)) == Success(ParseState(l, m[l := ItemsMap(items)]))
    decreases |items|
  {
    if items == [] {
      assert m[l := map[]] == m;
    } else {
      var init, last := items[..|items| - 1], items[|items| - 1];
      RunItems(init, l, m);
      RunAppend(Corrected, ItemLines(init), [ItemLine(last)], ParseState(l, m));
      ClassifyItemLine(last);
      var mid := ParseState(l, m[l := ItemsMap(init)]);
      var done := ParseState(l, m[l := ItemsMap(items)]);
      assert Step(Corrected, mid, ItemLine(last)) == Success(done) by {
        assert m[l := ItemsMap(init)][l := ItemsMap(items)] == m[l := ItemsMap(items)];
      }
      assert [ItemLine(last)][1..] == [];
      assert Run(Corrected, [ItemLine(last)], mid) == Success(done);
    }
  }

  lemma RunSection(s: Section, current: string, m: CheckList)
    requires s.labelName !in m
    ensures Run(Corrected, SectionLines(s), ParseState(current, m))
         == Success(ParseState(s.labelName, m[s.labelName := ItemsMap(s.list)]))
  {
    var l := s.labelName;
    var head := [HeadingPrefix + l, ""];
    var afterHead := ParseState(l, m[l := map[]]);
    ClassifyHeadingLine(l);
    ClassifyScaffolding();
    assert head[1..] == [""] && head[1..][1..] == [];
    assert Step(Corrected, ParseState(current, m), HeadingPrefix + l) == Success(afterHead);
    assert Run(Corrected, [""], afterHead) == Success(afterHead);
    assert Run(Corrected, head, ParseState(current, m)) == Success(afterHead);
    RunAppend(Corrected, head + ItemLines(s.list), [""], ParseState(current, m));
    RunAppend(Corrected, head, ItemLines(s.list), ParseState(current, m));
    RunItems(s.list, l, m[l := map[]]);
    assert m[l := map[]][l := ItemsMap(s.list)] == m[l := ItemsMap(s.list)];
  }

  lemma {:induction false} RunSections(contents: Contents)
    requires DistinctLabels(contents)
    ensures Run(Corrected, SectionsLines(contents), Start).Success?
    ensures Run(Corrected, SectionsLines(contents), Start).value.resultMap == ToCheckList(contents)
    decreases |contents|
  {
    if contents != [] {
      var init, last := contents[..|contents| - 1], contents[|contents| - 1];
      RunSections(init);
      var mid := Run(Corrected, SectionsLines(init), Start).value;
      LabelAbsent(init, last.labelName);
      RunAppend(Corrected, SectionsLines(init), SectionLines(last), Start);
      RunSection(last, mid.currentLabel, mid.resultMap);
    }
  }

  /**
   * With the bucket created at its heading, parsing what was rendered gives back the
   * label -> item -> checked map of the contents.
   */
  lemma RoundTripCorrected(contents: Contents)
    requires WellFormed(contents)
    ensures ParseCheckListCorrected(Render(contents)) == Success(ToCheckList(contents))
  {
    SplitRender(contents);
    ClassifyScaffolding();
    var body := SectionsLines(contents);
    assert RenderLines(contents) + [""] == [PrefixComment, ""] + (body + [""]);
    RunAppend(Corrected, [PrefixComment, ""], body + [""], Start);
    assert [PrefixComment, ""][1..] == [""] && [PrefixComment, ""][1..][1..] == [];
    assert Run(Corrected, [""], Start) == Success(Start);
    assert Run(Corrected, [PrefixComment, ""], Start) == Success(Start);
    RunAppend(Corrected, body, [""], Start);
    RunSections(contents);
  }

  /** The single-section checklist of the specification's end-to-end example. */
  const ReviewExample: Contents := [Section("Review", [Item("Check style", false)])]

  lemma ReviewExampleLines()
    ensures RenderLines(ReviewExample) == [PrefixComment, "", "#### Review", "", "- [ ] Check style", ""]
    ensures WellFormed(ReviewExample)
  {
    var s := ReviewExample[0];
    assert SectionsLines(ReviewExample) == SectionLines(s) by {
      assert ReviewExample[..0] == [];
    }
    assert ItemLines(s.list) == ["- [ ] Check style"] by {
      assert s.list[..0] == [];
      assert ItemLine(s.list[0]) == "- [ ] Check style";
    }
    assert HeadingPrefix + s.labelName == "#### Review";
    assert IsLine(s.labelName) && IsLine(s.list[0].name);
  }

  lemma ReviewExampleRender()
    ensures Render(ReviewExample) == PrefixComment + "\n\n" + ("#### Review\n\n" + "- [ ] Check style\n" + "\n")
  {
    var s := ReviewExample[0];
    assert s.list[..0] == [];
    var item := "- [ ] Check style";
    assert ItemLine(s.list[0]) == item;
    assert ItemLines(s.list) == [item];
    assert Terminated([item]) == item + "\n";
    var heading := HeadingPrefix + s.labelName;
    assert heading == "#### Review";
    SectionText(s);
    var sec := Terminated(SectionLines(s));
    assert sec == heading + "\n\n" + (item + "\n") + "\n";
    assert sec == "#### Review\n\n" + "- [ ] Check style\n" + "\n";
    RenderAppend([], s);
    assert [] + [s] == ReviewExample;
    RenderStartsWithSentinel([]);
  }

  /** As written, the example fails at its item line, under the label "Review". */
  lemma ReviewExampleAsWritten()
    ensures Parse(AsWritten, Render(ReviewExample)) == Failure(NoBucket("Review"))
  {
    ReviewExampleLines();
    SplitRender(ReviewExample);
    ClassifyScaffolding();
    ClassifyHeadingLine("Review");
    ClassifyItemLine(Item("Check style", false));
    var t := [PrefixComment, "", "#### Review", "", "- [ ] Check style", "", ""];
    assert SplitLines(Render(ReviewExample)) == t;
    var t4 := ["- [ ] Check style", "", ""];
    assert t4[1..] == ["", ""];
    var labelled := ParseState("Review", map[]);
    assert Run(AsWritten, t4, labelled) == Failure(NoBucket("Review"));
    assert Run(AsWritten, [""] + t4, labelled) == Failure(NoBucket("Review")) by { assert ([""] + t4)[1..] == t4; }
    assert Run(AsWritten, ["#### Review", ""] + t4, Start) == Failure(NoBucket("Review")) by {
      assert (["#### Review", ""] + t4)[1..] == [""] + t4;
    }
    assert Run(AsWritten, ["", "#### Review", ""] + t4, Start) == Failure(NoBucket("Review")) by {
      assert (["", "#### Review", ""] + t4)[1..] == ["#### Review", ""] + t4;
    }
    assert t[1..] == ["", "#### Review", ""] + t4;
  }

  /** Corrected, the example parses to the one label with its one unchecked item. */
  lemma ReviewExampleCorrected()
    ensures ParseCheckListCorrected(Render(ReviewExample)) == Success(map["Review" := map["Check style" := false]])
  {
    ReviewExampleLines();
    RoundTripCorrected(ReviewExample);
    var s := ReviewExample[0];
    assert s.list[..0] == [] && ReviewExample[..0] == [];
    assert ItemsMap(s.list) == map["Check style" := false];
    assert ToCheckList(ReviewExample) == map["Review" := map["Check style" := false]];
  }
}
