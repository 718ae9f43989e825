/** The records shared by the composer, the options panel and the shell:
    the closed simplification-level enum, the option record and the
    attachment record produced by the file picker. */
module Types {
  import opened Wrappers

  /** The three rewrite styles, in declaration order. */
  datatype Level = MiddleSchool | HighSchool | BulletPoints

  /** The string value of each enum member; the radio list shows it as the label. */
  function LevelLabel(l: Level): (shown: string)
    ensures |shown| > 0
  {
    match l
    case MiddleSchool => "Very Simple (Middle School)"
    case HighSchool => "Simple (High School)"
    case BulletPoints => "Actionable Bullet Points"
  }

  /** Distinct levels are shown under distinct labels, so the label identifies the level. */
  lemma LevelLabelInjective(a: Level, b: Level)
    ensures LevelLabel(a) == LevelLabel(b) <==> a == b
  {
    if a != b {
      // the labels already differ in their first character or in their length
      assert LevelLabel(a)[0] != LevelLabel(b)[0] || |LevelLabel(a)| != |LevelLabel(b)|;
    }
  }

  datatype Options = Options(level: Level, includeExamples: bool, highlightDeadlines: bool)

  /** A picked file after intake. `data` is `None` when the data URL held no
      comma, which is what `split(',')[1]` yields as `undefined`. */
  datatype Attachment = Attachment(name: string, mimeType: string, data: Option<string>)
}
