/** The output panel: when Read Aloud and Copy accept clicks, which of the
    three views fills the panel, and the Read Aloud caption. */
module OutputDisplay {

  /** `disabled={loading || !content || speaking}`, negated. */
  predicate ReadAloudEnabled(content: string, loading: bool, speaking: bool) {
    !(loading || content == "" || speaking)
  }

  /** `disabled={loading || !content}`, negated. */
  predicate CopyEnabled(content: string, loading: bool) {
    !(loading || content == "")
  }

  /** Read Aloud accepts a click only when Copy does and no speech request is
      in flight. The flag drops once playback has started, so audio still
      playing does not keep the button disabled. */
  lemma ReadAloudNeedsCopyAndQuiet(content: string, loading: bool, speaking: bool)
    ensures ReadAloudEnabled(content, loading, speaking) <==> CopyEnabled(content, loading) && !speaking
    ensures speaking ==> !ReadAloudEnabled(content, loading, speaking)
  {
  }

  datatype View = Spinner | Placeholder | Rendered(markdown: string)

  /** The body of the panel: the spinner while loading, the placeholder for
      empty content, and the content rendered as markdown otherwise. */
  function ViewOf(content: string, loading: bool): (v: View)
    ensures v.Spinner? <==> loading
    ensures v.Placeholder? <==> !loading && content == ""
    ensures v.Rendered? <==> !loading && content != ""
    ensures v.Rendered? ==> v.markdown == content
  {
    if loading then Spinner
    else if content == "" then Placeholder
    else Rendered(content)
  }

  /** Rendered content is exactly the content Copy would copy. */
  lemma RenderedIffCopyable(content: string, loading: bool)
    ensures ViewOf(content, loading) == Rendered(content) <==> CopyEnabled(content, loading)
  {
  }

  /** The caption of the Read Aloud button. */
  function ReadAloudCaption(speaking: bool): (caption: string)
    ensures caption == "Reading..." <==> speaking
    ensures !speaking ==> caption == "Read Aloud"
  {
    if speaking then "Reading..." else "Read Aloud"
  }
}
