/** The option record editor: `handleChange(key, value)` replaces one field
    of the record, and the radio list marks the selected level. */
module OptionsPanel {
  import opened Types

  /** A `handleChange` call: which key, with which value. The three controls
      issue `SetLevel` (radio), `SetIncludeExamples` and
      `SetHighlightDeadlines` (checkboxes). */
  datatype Change = SetLevel(level: Level) | SetIncludeExamples(on: bool) | SetHighlightDeadlines(on: bool)

  /** `{ ...options, [key]: value }`. */
  function Apply(o: Options, c: Change): (r: Options)
    ensures c.SetLevel? ==> r.level == c.level
    ensures c.SetIncludeExamples? ==> r.includeExamples == c.on
    ensures c.SetHighlightDeadlines? ==> r.highlightDeadlines == c.on
    ensures !c.SetLevel? ==> r.level == o.level
    ensures !c.SetIncludeExamples? ==> r.includeExamples == o.includeExamples
    ensures !c.SetHighlightDeadlines? ==> r.highlightDeadlines == o.highlightDeadlines
  {
    match c
    case SetLevel(l) => o.(level := l)
    case SetIncludeExamples(b) => o.(includeExamples := b)
    case SetHighlightDeadlines(b) => o.(highlightDeadlines := b)
  }

  /** The value the record currently holds at the key `c` writes. */
  function Current(o: Options, c: Change): Change {
    match c
    case SetLevel(_) => SetLevel(o.level)
    case SetIncludeExamples(_) => SetIncludeExamples(o.includeExamples)
    case SetHighlightDeadlines(_) => SetHighlightDeadlines(o.highlightDeadlines)
  }

  /** After a change the record holds the changed value. */
  lemma ApplyThenRead(o: Options, c: Change)
    ensures Current(Apply(o, c), c) == c
  {
  }

  /** Writing the value a field already holds leaves the record as it was. */
  lemma ApplyCurrentIsIdentity(o: Options, c: Change)
    ensures Apply(o, Current(o, c)) == o
  {
  }

  /** Repeating a change has no further effect. */
  lemma ApplyIdempotent(o: Options, c: Change)
    ensures Apply(Apply(o, c), c) == Apply(o, c)
  {
  }

  /** Changes to different keys commute; a later change to the same key wins. */
  lemma ApplyCommutes(o: Options, c: Change, d: Change)
    ensures (c.SetLevel? != d.SetLevel? || c.SetIncludeExamples? != d.SetIncludeExamples?
             || c.SetHighlightDeadlines? != d.SetHighlightDeadlines?)
            ==> Apply(Apply(o, c), d) == Apply(Apply(o, d), c)
    ensures (c.SetLevel? == d.SetLevel? && c.SetIncludeExamples? == d.SetIncludeExamples?)
            ==> Apply(Apply(o, c), d) == Apply(o, d)
  {
  }

  /** `Object.values(SimplificationLevel)`: the radio entries, in declaration order. */
  const LevelChoices: seq<Level> := [MiddleSchool, HighSchool, BulletPoints]

  /** `checked={options.level === level}` for each entry. */
  function CheckedFlags(o: Options): (flags: seq<bool>)
    ensures |flags| == |LevelChoices|
  {
    seq(|LevelChoices|, i requires 0 <= i < |LevelChoices| => LevelChoices[i] == o.level)
  }

  /** Every level is listed exactly once, and exactly one entry is checked:
      the one for the record's level. */
  lemma ExactlyOneChecked(o: Options)
    ensures forall l: Level :: l in LevelChoices
    ensures forall i, j :: 0 <= i < j < |LevelChoices| ==> LevelChoices[i] != LevelChoices[j]
    ensures exists i :: 0 <= i < |LevelChoices| && CheckedFlags(o)[i] && LevelChoices[i] == o.level
    ensures forall i, j :: 0 <= i < |LevelChoices| && 0 <= j < |LevelChoices| && CheckedFlags(o)[i] && CheckedFlags(o)[j] ==> i == j
  {
    forall l: Level
      ensures l in LevelChoices
    {
      assert LevelChoices[if l == MiddleSchool then 0 else if l == HighSchool then 1 else 2] == l;
    }
    var i := if o.level == MiddleSchool then 0 else if o.level == HighSchool then 1 else 2;
    assert CheckedFlags(o)[i] && LevelChoices[i] == o.level;
  }

  /** The caption of each radio entry, `{level}`, which is also its React `key`. */
  function EntryLabels(): (labels: seq<string>)
    ensures labels == ["Very Simple (Middle School)", "Simple (High School)", "Actionable Bullet Points"]
    ensures forall i :: 0 <= i < |labels| ==> labels[i] == LevelLabel(LevelChoices[i])
  {
    seq(|LevelChoices|, i requires 0 <= i < |LevelChoices| => LevelLabel(LevelChoices[i]))
  }

  /** The entries carry pairwise distinct captions, so their keys are unique
      and each caption names exactly one level. */
  lemma EntryLabelsDistinct()
    ensures forall i, j :: 0 <= i < j < |EntryLabels()| ==> EntryLabels()[i] != EntryLabels()[j]
  {
    forall i, j | 0 <= i < j < |EntryLabels()|
      ensures EntryLabels()[i] != EntryLabels()[j]
    {
      LevelLabelInjective(LevelChoices[i], LevelChoices[j]);
    }
  }

  /** Clicking an entry's radio checks that entry and no other. */
  lemma SelectingChecks(o: Options, i: nat)
    requires i < |LevelChoices|
    ensures forall j :: 0 <= j < |LevelChoices| ==> (CheckedFlags(Apply(o, SetLevel(LevelChoices[i])))[j] <==> j == i)
  {
  }
}
