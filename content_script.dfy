/** The page overlay's own logic (src/content-script.tsx): style text, the code text
    read from the page, the position guard, the colours of quick-info parts, the
    merge of successive hint responses, and how the quick-info box is placed and filled.
    DOM measurement and rendering are not modelled. */
module ContentScript {
  import opened Wrappers
  import opened Sequences
  import opened Hints

  // ---------------------------------------------------------------------------
  // toStyleText

  /** One style declaration, `k:v` (values are given already rendered as text). */
  function StyleEntry(entry: (string, string)): string {
    entry.0 + ":" + entry.1
  }

  /** `toStyleText`: the declarations of the entries, in entry order, joined by `;`. */
  function ToStyleText(entries: seq<(string, string)>): (r: string)
    ensures r == "" <==> entries == []
  {
    if entries == [] then ""
    else if |entries| == 1 then StyleEntry(entries[0])
    else StyleEntry(entries[0]) + ";" + ToStyleText(entries[1..])
  }

  /** No key or value contains the separator. */
  predicate SeparatorFree(entries: seq<(string, string)>) {
    forall k :: 0 <= k < |entries| ==> ';' !in entries[k].0 && ';' !in entries[k].1
  }

  /** `s.split(';')`. */
  function Split(s: string): (parts: seq<string>)
    ensures |parts| >= 1
    decreases |s|
  {
    if ';' !in s then [s]
    else
      var i := FirstIndex(s, ';');
      [s[..i]] + Split(s[i + 1..])
  }

  /** n entries produce exactly n - 1 separators. */
  lemma {:induction false} StyleTextSeparators(entries: seq<(string, string)>)
    requires |entries| >= 1 && SeparatorFree(entries)
    ensures Count(ToStyleText(entries), ';') == |entries| - 1
  {
    var e := StyleEntry(entries[0]);
    assert ';' !in e by {
      assert e == entries[0].0 + ":" + entries[0].1;
    }
    if |entries| > 1 {
      StyleTextSeparators(entries[1..]);
      CountAppend(e, ";" + ToStyleText(entries[1..]), ';');
      CountAppend(";", ToStyleText(entries[1..]), ';');
      assert e + ";" + ToStyleText(entries[1..]) == e + (";" + ToStyleText(entries[1..]));
    }
  }

  /** A piece without `;`, then `;`: the first part of the split. */
  lemma SplitCons(piece: string, rest: string)
    requires ';' !in piece
    ensures Split(piece + ";" + rest) == [piece] + Split(rest)
  {
    var s := piece + ";" + rest;
    assert s[|piece|] == ';' && s[..|piece|] == piece && s[|piece| + 1..] == rest;
    assert forall j :: 0 <= j < |piece| ==> s[j] != ';' by {
      forall j | 0 <= j < |piece| ensures s[j] != ';' {
        assert s[j] == piece[j];
      }
    }
    FirstIndexUnique(s, ';', |piece|);
  }

  /** Splitting the style text at `;` gives back each entry's declaration, in order. */
  lemma {:induction false} StyleTextSplits(entries: seq<(string, string)>)
    requires |entries| >= 1 && SeparatorFree(entries)
    ensures Split(ToStyleText(entries)) == seq(|entries|, k requires 0 <= k < |entries| => StyleEntry(entries[k]))
  {
    var e := StyleEntry(entries[0]);
    if |entries| > 1 {
      StyleTextCons(entries);
      SeparatorFreeTail(entries);
      StyleTextSplits(entries[1..]);
      DeclarationsCons(entries);
    } else {
      assert ToStyleText(entries) == e;
    }
  }

  /** The first declaration, a `;`, then the rest: and the split takes the first off. */
  lemma StyleTextCons(entries: seq<(string, string)>)
    requires |entries| > 1 && SeparatorFree(entries)
    ensures Split(ToStyleText(entries)) == [StyleEntry(entries[0])] + Split(ToStyleText(entries[1..]))
  {
    var e := StyleEntry(entries[0]);
    assert ';' !in e by {
      assert e == entries[0].0 + ":" + entries[0].1;
    }
    assert ToStyleText(entries) == e + ";" + ToStyleText(entries[1..]);
    SplitCons(e, ToStyleText(entries[1..]));
  }

  lemma SeparatorFreeTail(entries: seq<(string, string)>)
    requires |entries| >= 1 && SeparatorFree(entries)
    ensures SeparatorFree(entries[1..])
  {
    forall k | 0 <= k < |entries| - 1 ensures ';' !in entries[1..][k].0 && ';' !in entries[1..][k].1 {
      assert entries[1..][k] == entries[k + 1];
    }
  }

  lemma DeclarationsCons(entries: seq<(string, string)>)
    requires |entries| >= 1
    ensures seq(|entries|, k requires 0 <= k < |entries| => StyleEntry(entries[k])) ==
      [StyleEntry(entries[0])] + seq(|entries| - 1, k requires 0 <= k < |entries| - 1 => StyleEntry(entries[1..][k]))
  {
  }

  // ---------------------------------------------------------------------------
  // getCode

  /** The `reduce` of both adapters' `getCode`: each cell's text with its line breaks
      removed, followed by one line break, in cell order. */
  function GetCode(cells: seq<string>): (code: string)
    ensures code == "" <==> cells == []
    ensures cells != [] ==> code[|code| - 1] == '\n'
  {
    if cells == [] then ""
    else
      var n := |cells| - 1;
      GetCode(cells[..n]) + Strip(cells[n], '\n') + "\n"
  }

  /** The code contains exactly one line break per cell. */
  lemma {:induction false} GetCodeLineBreaks(cells: seq<string>)
    ensures Count(GetCode(cells), '\n') == |cells|
  {
    if cells != [] {
      var n := |cells| - 1;
      var line := Strip(cells[n], '\n');
      GetCodeLineBreaks(cells[..n]);
      CountAppend(GetCode(cells[..n]) + line, "\n", '\n');
      CountAppend(GetCode(cells[..n]), line, '\n');
    }
  }

  /** The text split into lines, each terminated by `\n` (a last unterminated line
      counts too). */
  function Lines(s: string): seq<string>
    decreases |s|
  {
    if s == [] then []
    else if '\n' !in s then [s]
    else
      var i := FirstIndex(s, '\n');
      [s[..i]] + Lines(s[i + 1..])
  }

  /** The fold read from the front: the first cell's line comes first. */
  lemma {:induction false} GetCodeFront(cells: seq<string>)
    requires |cells| >= 1
    ensures GetCode(cells) == Strip(cells[0], '\n') + "\n" + GetCode(cells[1..])
  {
    var n := |cells| - 1;
    if n > 0 {
      GetCodeFront(cells[..n]);
      assert cells[..n][1..] == cells[1..][..n - 1];
      assert cells[1..][n - 1] == cells[n];
    }
  }

  /** A line without a line break, then a line break: the first line of the text. */
  lemma LinesCons(line: string, rest: string)
    requires '\n' !in line
    ensures Lines(line + "\n" + rest) == [line] + Lines(rest)
  {
    var s := line + "\n" + rest;
    assert s[|line|] == '\n' && s[..|line|] == line && s[|line| + 1..] == rest;
    assert forall j :: 0 <= j < |line| ==> s[j] != '\n' by {
      forall j | 0 <= j < |line| ensures s[j] != '\n' {
        assert s[j] == line[j];
      }
    }
    FirstIndexUnique(s, '\n', |line|);
  }

  /** Each cell's text with its line breaks removed, in cell order. */
  function StripEach(cells: seq<string>): (r: seq<string>)
    ensures |r| == |cells|
    ensures forall k :: 0 <= k < |cells| ==> r[k] == Strip(cells[k], '\n')
  {
    if cells == [] then [] else [Strip(cells[0], '\n')] + StripEach(cells[1..])
  }

  /** Reading the lines of the code back gives each cell's text without line breaks:
      one line per cell, in cell order. */
  lemma {:induction false} GetCodeLines(cells: seq<string>)
    ensures Lines(GetCode(cells)) == StripEach(cells)
  {
    if cells != [] {
      GetCodeFront(cells);
      LinesCons(Strip(cells[0], '\n'), GetCode(cells[1..]));
      GetCodeLines(cells[1..]);
    }
  }

  // ---------------------------------------------------------------------------
  // getPosition and getColorFromKind

  /** The guard of `getPosition` on the already floored line and character: a position
      only when both are strictly positive. */
  function GetPosition(line: int, character: int): (p: Option<Position>)
    ensures p.Some? <==> line > 0 && character > 0
    ensures p.Some? ==> p.value.line == line && p.value.character == character
  {
    if line > 0 && character > 0 then Some(Position(line, character)) else None
  }

  /** `getColorFromKind`: blue for keywords, black for punctuation, dark blue otherwise. */
  function GetColorFromKind(kind: string): (color: string)
    ensures color == "#00f" <==> kind == "keyword"
    ensures color == "#000" <==> kind == "punctuation"
    ensures color == "#001080" <==> kind != "keyword" && kind != "punctuation"
  {
    match kind
    case "keyword" => "#00f"
    case "punctuation" => "#000"
    case _ => "#001080"
  }

  // ---------------------------------------------------------------------------
  // The response state

  /** A property of an object literal: absent, present with `undefined`, or present
      with a value. Spreading copies a present `undefined` but not an absent key. */
  datatype Field<T> = Absent | Undefined | Value(value: T)

  /** `HintResponse`: the three optional hints. */
  datatype HintResponse = HintResponse(occurrences: Field<seq<Occurrence>>, definition: Field<Position>, quickInfo: Field<QuickInfo>)

  /** `{}`. */
  const EmptyResponse: HintResponse := HintResponse(Absent, Absent, Absent)

  /** `{ quickInfo: undefined }`, sent on mouseout. */
  const MouseOutResponse: HintResponse := HintResponse(Absent, Absent, Undefined)

  /** One property of `{ ...current, ...res }`. */
  function Override<T>(current: Field<T>, incoming: Field<T>): (r: Field<T>)
    ensures incoming.Absent? ==> r == current
    ensures !incoming.Absent? ==> r == incoming
  {
    if incoming.Absent? then current else incoming
  }

  /** `{ ...response, ...res }`: every property present in `res` wins, the others stay. */
  function Merge(current: HintResponse, res: HintResponse): (r: HintResponse)
    ensures r.occurrences == Override(current.occurrences, res.occurrences)
    ensures r.definition == Override(current.definition, res.definition)
    ensures r.quickInfo == Override(current.quickInfo, res.quickInfo)
  {
    HintResponse(
      Override(current.occurrences, res.occurrences),
      Override(current.definition, res.definition),
      Override(current.quickInfo, res.quickInfo))
  }

  /** The state after a series of responses, merged in arrival order. */
  function MergeAll(current: HintResponse, responses: seq<HintResponse>): HintResponse
    decreases |responses|
  {
    if responses == [] then current else MergeAll(Merge(current, responses[0]), responses[1..])
  }

  /** Last writer wins: after a series of responses, the quick info is the one in the
      last response that has the property, or the earlier one if none has it. */
  lemma {:induction false} QuickInfoLastWriterWins(current: HintResponse, responses: seq<HintResponse>, k: nat)
    requires k < |responses| && !responses[k].quickInfo.Absent?
    requires forall j :: k < j < |responses| ==> responses[j].quickInfo.Absent?
    ensures MergeAll(current, responses).quickInfo == responses[k].quickInfo
    decreases |responses|
  {
    if k > 0 {
      QuickInfoLastWriterWins(Merge(current, responses[0]), responses[1..], k - 1);
    } else {
      QuickInfoUntouched(Merge(current, responses[0]), responses[1..]);
    }
  }

  /** Responses without a `quickInfo` property leave it as it was. */
  lemma {:induction false} QuickInfoUntouched(current: HintResponse, responses: seq<HintResponse>)
    requires forall j :: 0 <= j < |responses| ==> responses[j].quickInfo.Absent?
    ensures MergeAll(current, responses).quickInfo == current.quickInfo
    decreases |responses|
  {
    if responses != [] {
      QuickInfoUntouched(Merge(current, responses[0]), responses[1..]);
    }
  }

  /** Merging a series at once is merging its parts one after the other. */
  lemma {:induction false} MergeAllAppend(current: HintResponse, a: seq<HintResponse>, b: seq<HintResponse>)
    ensures MergeAll(current, a + b) == MergeAll(MergeAll(current, a), b)
    decreases |a|
  {
    if a != [] {
      assert (a + b)[1..] == a[1..] + b;
      MergeAllAppend(Merge(current, a[0]), a[1..], b);
    } else {
      assert a + b == b;
    }
  }

  /** Merging is associative: merging `b` and then `c` into `a` is merging their
      combination into `a`, so only the latest present value of each field counts. */
  lemma MergeAssociative(a: HintResponse, b: HintResponse, c: HintResponse)
    ensures Merge(Merge(a, b), c) == Merge(a, Merge(b, c))
  {
  }

  /** Mouseout hides the quick info and keeps the occurrences and the definition. */
  lemma MouseOutClearsOnlyQuickInfo(current: HintResponse)
    ensures Merge(current, MouseOutResponse).quickInfo == Undefined
    ensures Merge(current, MouseOutResponse).occurrences == current.occurrences
    ensures Merge(current, MouseOutResponse).definition == current.definition
  {
  }

  /** The module-level `response` variable and the handlers that reassign it. */
  class Overlay {
    var response: HintResponse

    constructor ()
      ensures response == EmptyResponse
    {
      response := EmptyResponse;
    }

    /** The reset in `init` when a container is seen for the first time. */
    method ResetResponse()
      modifies this
      ensures response == EmptyResponse
    {
      response := EmptyResponse;
    }

    /** The state update of `handleResponse`. */
    method HandleResponse(res: HintResponse)
      modifies this
      ensures response == Merge(old(response), res)
    {
      response := Merge(response, res);
    }

    /** The mouseout listener: `handleResponse({ quickInfo: undefined })`. */
    method MouseOut()
      modifies this
      ensures response.quickInfo == Undefined
      ensures response.occurrences == old(response).occurrences
      ensures response.definition == old(response).definition
    {
      HandleResponse(MouseOutResponse);
    }
  }

  // ---------------------------------------------------------------------------
  // The quick-info box

  /** Where the box is anchored: `top` or `bottom`, never both. */
  datatype Anchor = Top(top: real) | Bottom(bottom: real)

  /** The placement rule: below the hovered line on lines 0 and 1, above it otherwise. */
  function Placement(line: nat, lineHeight: real): (a: Anchor)
    ensures a.Top? <==> line < 2
    ensures a.Top? ==> a.top == (line + 1) as real * lineHeight
    ensures a.Bottom? ==> a.bottom == 0.0 - line as real * lineHeight
  {
    if line < 2 then Top((line + 1) as real * lineHeight) else Bottom(0.0 - line as real * lineHeight)
  }

  /** A rendered piece of display-part text. */
  datatype Element = LineBreak | Span(color: string, text: string)

  /** The box's content: a text node or a list of elements. */
  datatype Content = TextContent(text: string) | ElementList(elements: seq<Element>)

  /** One display part: a `<br />` for a part that is exactly a line break, otherwise
      a span in the colour of its kind. */
  function RenderPart(part: DisplayPart): (e: Element)
    ensures e.LineBreak? <==> part.text == "\n"
    ensures e.Span? ==> e.color == GetColorFromKind(part.kind) && e.text == part.text
  {
    if part.text == "\n" then LineBreak else Span(GetColorFromKind(part.kind), part.text)
  }

  /** The content of the box: a string without any backslash, or one element per part. */
  function FormatInfo(info: Info): (c: Content)
    ensures info.PlainText? ==>
      (c.TextContent? && c.text == Strip(info.text, '\\')
       && '\\' !in c.text && forall x :: x in c.text <==> x in info.text && x != '\\')
    ensures info.Parts? ==>
      (c.ElementList? && |c.elements| == |info.parts|
       && forall k :: 0 <= k < |info.parts| ==> c.elements[k] == RenderPart(info.parts[k]))
  {
    match info
    case PlainText(text) => TextContent(Strip(text, '\\'))
    case Parts(parts) => ElementList(seq(|parts|, k requires 0 <= k < |parts| => RenderPart(parts[k])))
  }

  /** The text shown is the string read piece by piece: a piece without backslashes
      is shown as it is, a backslash is dropped, and the pieces keep their order. */
  lemma FormatTextPieces(a: string, b: string)
    ensures FormatInfo(PlainText(a + b)).text == FormatInfo(PlainText(a)).text + FormatInfo(PlainText(b)).text
    ensures '\\' !in a ==> FormatInfo(PlainText(a)).text == a
    ensures FormatInfo(PlainText("\\")).text == ""
  {
    StripAppend(a, b, '\\');
    if '\\' !in a {
      StripAbsent(a, '\\');
    }
  }

  /** JavaScript truthiness of the info: a non-empty string, or any array. */
  predicate InfoTruthy(info: Info) {
    info.PlainText? ==> info.text != ""
  }

  /** The quick-info box, if one is drawn: where it is anchored and what it shows. */
  datatype Tooltip = Tooltip(anchor: Anchor, content: Content)

  /** `quickInfo?.info && <div …>`: a box only for a quick info with truthy info. */
  function TooltipOf(response: HintResponse, lineHeight: real): (t: Option<Tooltip>)
    ensures t.Some? <==> response.quickInfo.Value? && InfoTruthy(response.quickInfo.value.info)
    ensures t.Some? ==>
      t.value.anchor == Placement(response.quickInfo.value.range.line, lineHeight)
      && t.value.content == FormatInfo(response.quickInfo.value.info)
  {
    match response.quickInfo
    case Value(q) =>
      if InfoTruthy(q.info) then Some(Tooltip(Placement(q.range.line, lineHeight), FormatInfo(q.info))) else None
    case _ => None
  }

  /** After mouseout no quick-info box is drawn, whatever was shown before. */
  lemma MouseOutHidesTooltip(current: HintResponse, lineHeight: real)
    ensures TooltipOf(Merge(current, MouseOutResponse), lineHeight) == None
  {
  }
}
