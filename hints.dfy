/** The values that travel between the analysis bridge and the page overlay:
    line/character positions, spans and the three kinds of hint. */
module Hints {

  /** A zero-based line/character pair (TypeScript's `LineAndCharacter`). */
  datatype Position = Position(line: nat, character: nat)

  /** A span of a file's text as an offset and a length. */
  datatype TextSpan = TextSpan(start: nat, length: nat)

  /** One element of the engine's styled quick-info text. */
  datatype DisplayPart = DisplayPart(text: string, kind: string)

  /** Quick-info text: a plain string, or the engine's display parts. */
  datatype Info = PlainText(text: string) | Parts(parts: seq<DisplayPart>)

  /** A reference to highlight: where it starts and how many characters it covers. */
  datatype Occurrence = Occurrence(isWriteAccess: bool, range: Position, width: nat)

  /** The quick-info hint: the text, where its span starts and how wide it is. */
  datatype QuickInfo = QuickInfo(info: Info, range: Position, width: nat)
}
