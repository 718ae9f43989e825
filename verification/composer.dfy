/** The request composition half of `simplifyText`: a deterministic function
    of the input text, the optional attachment and the options, returning no
    request at all for empty input and otherwise the system instruction, the
    sampling temperature and the ordered content parts. */
module Composer {
  import opened Wrappers
  import opened Types
  import opened Text

  const SystemInstruction: string :=
    "You are an expert educational accessibility assistant. Your goal is to rewrite complex academic text into clear, simple English."

  /** Sampling temperature sent with every simplification request. */
  const Temperature: real := 0.3

  const Header: string := "Please rewrite the input according to these rules:\n"

  /** The directive block for each level, one literal per directive line;
      exactly one block is appended. */
  function LevelBlock(l: Level): string {
    match l
    case MiddleSchool =>
      "- Use very simple vocabulary (Grade 6 level).\n"
      + "- Keep sentences short and direct.\n"
      + "- Avoid jargon.\n"
    case HighSchool =>
      "- Use clear, standard English (Grade 9 level).\n"
      + "- Clarify complex terms.\n"
      + "- Maintain a professional but accessible tone.\n"
    case BulletPoints =>
      "- Convert the text into a checklist of actions.\n"
      + "- Extract key information into bullet points.\n"
      + "- Be extremely concise.\n"
  }

  const DeadlineLine: string :=
    "- If there are any dates or deadlines, list them explicitly at the very top in bold.\n"

  /** The worked-example block, including the leading newline and the
      indentation of the template literal it is written as. */
  const ExampleBlock: string :=
    "\n    - CRITICAL: After the simplified instructions, generate a specific, concrete example of what the task requires.\n    - If it's an essay, write a short example paragraph.\n    - If it's a math problem, show a similar solved example.\n    - Label this section clearly as \"### Example\".\n    "

  const ExampleHeading: string := "### Example"

  const InputIntro: string := "\n\nInput Text to Simplify:\n\""

  const AttachmentNote: string := "\n\n(Simplify the text found in the attached document/image)"

  /** One entry of the `parts` array: inline binary data or text. */
  datatype Part = InlineData(mimeType: string, data: Option<string>) | TextPart(text: string)

  /** Everything of a text-generation request except the model identifier. */
  datatype Request = Request(systemInstruction: string, temperature: real, parts: seq<Part>)

  function Optional(present: bool, block: string): string {
    if present then block else ""
  }

  /** The rules text: header, the level block, then the deadline line and the
      example block when their flags are on, in that order. */
  function Instructions(o: Options): string {
    Header + LevelBlock(o.level) + Optional(o.highlightDeadlines, DeadlineLine)
      + Optional(o.includeExamples, ExampleBlock)
  }

  /** What follows the rules: the quoted, untrimmed input, or the
      attached-document note when the input is blank. */
  function PromptTail(text: string, attachment: Option<Attachment>): string {
    if Trim(text) != "" then InputIntro + text + "\""
    else if attachment.Some? then AttachmentNote
    else ""
  }

  /** The request `simplifyText` sends, or `None` when it returns "" early
      because the text is blank and nothing is attached. */
  function Compose(text: string, attachment: Option<Attachment>, o: Options): (r: Option<Request>)
    ensures r.None? <==> Blank(text) && attachment.None?
    ensures r.Some? ==>
      && r.value.systemInstruction == SystemInstruction
      && r.value.temperature == 0.3
      && |r.value.parts| == (if attachment.Some? then 2 else 1)
      && r.value.parts[|r.value.parts| - 1].TextPart?
      && Header + LevelBlock(o.level) <= r.value.parts[|r.value.parts| - 1].text
      && Instructions(o) <= r.value.parts[|r.value.parts| - 1].text
    ensures r.Some? && attachment.Some? ==>
      r.value.parts[0] == InlineData(attachment.value.mimeType, attachment.value.data)
    ensures r.Some? && !Blank(text) ==>
      EndsWith(r.value.parts[|r.value.parts| - 1].text, "\"" + text + "\"")
    ensures r.Some? && Blank(text) ==>
      EndsWith(r.value.parts[|r.value.parts| - 1].text, AttachmentNote)
    ensures r.Some? && !Blank(text) ==>
      EndsWith(r.value.parts[|r.value.parts| - 1].text, InputIntro + text + "\"")
    ensures r.Some? ==>
      |r.value.parts[|r.value.parts| - 1].text|
        == |Instructions(o)| + (if Blank(text) then |AttachmentNote| else |InputIntro| + |text| + 1)
  {
    TrimEmptyIffBlank(text);
    if Trim(text) == "" && attachment.None? then None
    else
      var prompt := Instructions(o) + PromptTail(text, attachment);
      PromptShape(text, attachment, o);
      Some(Request(SystemInstruction, Temperature, Parts(attachment, prompt)))
  }

  /** The attachment as inline data, if any, then the prompt as text. */
  function Parts(attachment: Option<Attachment>, prompt: string): (parts: seq<Part>)
    ensures |parts| == (if attachment.Some? then 2 else 1)
    ensures parts[|parts| - 1] == TextPart(prompt)
    ensures attachment.Some? ==> parts[0] == InlineData(attachment.value.mimeType, attachment.value.data)
  {
    if attachment.Some? then [InlineData(attachment.value.mimeType, attachment.value.data), TextPart(prompt)]
    else [TextPart(prompt)]
  }

  /** The final text opens with the header and the selected level block, and
      closes with the intro line and the quoted input or, for blank input,
      the attachment note; its length leaves nothing else between the rules
      text and that closing. */
  lemma PromptShape(text: string, attachment: Option<Attachment>, o: Options)
    requires !Blank(text) || attachment.Some?
    ensures Header + LevelBlock(o.level) <= Instructions(o) + PromptTail(text, attachment)
    ensures !Blank(text) ==> EndsWith(Instructions(o) + PromptTail(text, attachment), "\"" + text + "\"")
    ensures !Blank(text) ==> EndsWith(Instructions(o) + PromptTail(text, attachment), InputIntro + text + "\"")
    ensures Blank(text) ==> EndsWith(Instructions(o) + PromptTail(text, attachment), AttachmentNote)
    ensures |Instructions(o) + PromptTail(text, attachment)|
      == |Instructions(o)| + (if Blank(text) then |AttachmentNote| else |InputIntro| + |text| + 1)
  {
    TrimEmptyIffBlank(text);
    LevelBlockFirst(o, o.level);
    PrefixOfConcat(Header + LevelBlock(o.level), Instructions(o), PromptTail(text, attachment));
    if Trim(text) != "" {
      EndsWithQuoted(InputIntro, text, "\"");
      SuffixOfConcat("\"" + text + "\"", Instructions(o), PromptTail(text, attachment));
      TakeSuffixPresent(Instructions(o), InputIntro + text + "\"");
    } else {
      TakeSuffixPresent(Instructions(o), AttachmentNote);
    }
  }

  /** The level whose block follows the header and ends the text. */
  function ParseLevel(s: string): Option<Level> {
    if !(Header <= s) then None
    else
      var block := s[|Header|..];
      if block == LevelBlock(MiddleSchool) then Some(MiddleSchool)
      else if block == LevelBlock(HighSchool) then Some(HighSchool)
      else if block == LevelBlock(BulletPoints) then Some(BulletPoints)
      else None
  }

  /** Reads the options back from a rules text, peeling the optional blocks
      off its end and then matching the remaining level block in full; the
      inverse of `Instructions`. */
  function ParseInstructions(s: string): Option<Options> {
    var (examples, beforeExamples) := TakeSuffix(s, ExampleBlock);
    var (deadlines, beforeDeadline) := TakeSuffix(beforeExamples, DeadlineLine);
    match ParseLevel(beforeDeadline)
    case None => None
    case Some(l) => Some(Options(l, examples, deadlines))
  }

  /** The length of each level block. */
  function LevelBlockLength(l: Level): nat {
    match l
    case MiddleSchool => 97
    case HighSchool => 119
    case BulletPoints => 118
  }

  /** A position inside every level block at which the three blocks hold
      three different characters: the line break after "(Grade 6 level).",
      the full stop of "(Grade 9 level)." and the final "s" of "actions". */
  const LevelBlocksDifferAt: nat := 45

  /** How far from its end a rules block holds the last letter of its final
      sentence, the letter before the closing ".\n". */
  const LastLetterFromEnd: nat := 2

  /** The facts about the block literals the proofs below rely on. */
  lemma LevelBlockShape(l: Level)
    ensures |LevelBlock(l)| == LevelBlockLength(l)
    ensures LevelBlock(l)[LevelBlocksDifferAt]
      == match l case MiddleSchool => '\n' case HighSchool => '.' case BulletPoints => 's'
    ensures LevelBlock(l)[LevelBlockLength(l) - 1 - LastLetterFromEnd]
      == match l case MiddleSchool => 'n' case _ => 'e'
  {
    match l
    case MiddleSchool =>
    case HighSchool =>
    case BulletPoints =>
  }

  lemma BlockLengths()
    ensures |Header| == 51 && |DeadlineLine| == 85 && |ExampleBlock| == 290
    ensures DeadlineLine[|DeadlineLine| - 1 - LastLetterFromEnd] == 'd'
  {
  }

  /** Distinct levels have distinct blocks; they already differ in length. */
  lemma LevelBlockInjective(a: Level, b: Level)
    ensures LevelBlock(a) == LevelBlock(b) <==> a == b
  {
    LevelBlockShape(a);
    LevelBlockShape(b);
  }

  /** Header plus a level block opens the rules text exactly for the selected level. */
  lemma LevelBlockFirst(o: Options, l: Level)
    ensures Header + LevelBlock(l) <= Instructions(o) <==> l == o.level
  {
    var d := Optional(o.highlightDeadlines, DeadlineLine);
    var e := Optional(o.includeExamples, ExampleBlock);
    if l == o.level {
      PrefixOfConcat(Header + LevelBlock(l), Header + LevelBlock(l), d);
      PrefixOfConcat(Header + LevelBlock(l), Header + LevelBlock(l) + d, e);
    } else {
      LevelBlockShape(l);
      LevelBlockShape(o.level);
      PrefixMismatch(Header, LevelBlock(o.level), LevelBlock(l), d, e, LevelBlocksDifferAt);
    }
  }

  lemma DeadlineLinePresent(o: Options)
    requires o.highlightDeadlines
    ensures EndsWith(Instructions(o), DeadlineLine + Optional(o.includeExamples, ExampleBlock))
  {
    assert Optional(o.highlightDeadlines, DeadlineLine) == DeadlineLine;
    EndsWithPieceAndTail(Header + LevelBlock(o.level), DeadlineLine, Optional(o.includeExamples, ExampleBlock));
  }

  /** Without the deadline line no suffix of the rules text looks like one:
      the level blocks end in "n.\n" or "e.\n", the deadline line in "d.\n". */
  lemma DeadlineLineAbsent(o: Options)
    requires !o.highlightDeadlines
    ensures !EndsWith(Instructions(o), DeadlineLine + Optional(o.includeExamples, ExampleBlock))
  {
    var e := Optional(o.includeExamples, ExampleBlock);
    LevelBlockShape(o.level);
    BlockLengths();
    assert Header + LevelBlock(o.level) + "" == Header + LevelBlock(o.level);
    SuffixMismatchBeforeTail(Header, LevelBlock(o.level), e, DeadlineLine, LastLetterFromEnd);
  }

  /** The deadline line stands right before the optional example block
      exactly when deadlines are highlighted. */
  lemma DeadlineLinePlacement(o: Options)
    ensures EndsWith(Instructions(o), DeadlineLine + Optional(o.includeExamples, ExampleBlock))
        <==> o.highlightDeadlines
  {
    if o.highlightDeadlines {
      DeadlineLinePresent(o);
    } else {
      DeadlineLineAbsent(o);
    }
  }

  /** Peeling the example block off the rules text finds it exactly when
      examples are on, and leaves the header, level block and deadline line. */
  lemma TakeExampleBlock(o: Options)
    ensures TakeSuffix(Instructions(o), ExampleBlock)
      == (o.includeExamples, Header + LevelBlock(o.level) + Optional(o.highlightDeadlines, DeadlineLine))
  {
    var before := Header + LevelBlock(o.level) + Optional(o.highlightDeadlines, DeadlineLine);
    if o.includeExamples {
      TakeSuffixPresent(before, ExampleBlock);
    } else {
      // without it the whole text is shorter than the block alone
      LevelBlockShape(o.level);
      BlockLengths();
      assert before + "" == before;
      TakeSuffixAbsent(before, ExampleBlock);
    }
  }

  /** Peeling the deadline line off header, level block and optional line. */
  lemma TakeDeadlineLine(l: Level, deadlines: bool)
    ensures TakeSuffix(Header + LevelBlock(l) + Optional(deadlines, DeadlineLine), DeadlineLine)
      == (deadlines, Header + LevelBlock(l))
  {
    if deadlines {
      TakeSuffixPresent(Header + LevelBlock(l), DeadlineLine);
    } else {
      LevelBlockShape(l);
      BlockLengths();
      SuffixMismatch(Header, LevelBlock(l), DeadlineLine, LastLetterFromEnd);
      assert Header + LevelBlock(l) + "" == Header + LevelBlock(l);
      TakeSuffixAbsent(Header + LevelBlock(l), DeadlineLine);
    }
  }

  lemma ParseLevelInverse(l: Level)
    ensures ParseLevel(Header + LevelBlock(l)) == Some(l)
  {
    DropPrefix(Header, LevelBlock(l));
    LevelBlockInjective(l, MiddleSchool);
    LevelBlockInjective(l, HighSchool);
  }

  /** Reading the options back from the rules text recovers them. */
  lemma {:induction false} ParseInstructionsInverse(o: Options)
    ensures ParseInstructions(Instructions(o)) == Some(o)
  {
    TakeExampleBlock(o);
    TakeDeadlineLine(o.level, o.highlightDeadlines);
    ParseLevelInverse(o.level);
  }

  /** Different option records never produce the same rules text, so the
      3 x 2 x 2 combinations give 12 distinct texts. */
  lemma InstructionsInjective(a: Options, b: Options)
    ensures Instructions(a) == Instructions(b) <==> a == b
  {
    ParseInstructionsInverse(a);
    ParseInstructionsInverse(b);
  }

  /** The example heading is in the rules text whenever examples are on. */
  lemma ExampleHeadingPresent(o: Options)
    requires o.includeExamples
    ensures Contains(Instructions(o), ExampleHeading)
  {
    assert ExampleBlock[272..283] == ExampleHeading;
    assert OccursAt(ExampleBlock, ExampleHeading, 272);
    ContainsIffOccurs(ExampleBlock, ExampleHeading);
    var before := Header + LevelBlock(o.level) + Optional(o.highlightDeadlines, DeadlineLine);
    ContainsInConcat(before, ExampleBlock, "", ExampleHeading);
    assert Instructions(o) == before + ExampleBlock + "";
  }
}
