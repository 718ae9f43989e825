/** The rules of the input panel: the 10 MiB size gate and the payload
    taken from the data URL `FileReader` produces (the `data:<mime>;base64,<data>`
    form of section 3 of RFC 2397), the Clear All control, and the icon and
    label shown for an attachment. The file picker and `FileReader` are
    parameters. */
module InputArea {
  import opened Wrappers
  import opened Types
  import opened Text

  /** 10 * 1024 * 1024 bytes. */
  const MaxFileBytes: nat := 10 * 1024 * 1024

  /** The `File` the picker hands over: name, type and size in bytes. */
  datatype PickedFile = PickedFile(name: string, mimeType: string, size: nat)

  /** What `handleFileChange` ends with: nothing picked, the oversize alert,
      a read that failed (its `onloadend` sees a `null` result, `result.split`
      throws and nothing is attached), or the attachment passed to `onAttach`. */
  datatype Intake = NoFile | TooLarge | ReadFailed | Attached(attachment: Attachment)

  /** `p` is the piece of `url` after its first comma, at position `k`: it
      runs from just past that comma up to the next comma or the end. */
  ghost predicate PieceAfterFirstComma(url: string, k: int, p: string) {
    && 0 <= k < |url| && url[k] == ',' && ',' !in url[..k]
    && k + 1 + |p| <= |url| && url[k + 1..k + 1 + |p|] == p && ',' !in p
    && (k + 1 + |p| == |url| || url[k + 1 + |p|] == ',')
  }

  /** `result.split(',')[1]`: the second comma-separated piece, `None` where
      JavaScript yields `undefined` because the URL has no comma. */
  function DataUrlPayload(url: string): (r: Option<string>)
    ensures r.Some? <==> ',' in url
    ensures r.Some? ==> ',' !in r.value
    ensures r.Some? ==> exists k :: PieceAfterFirstComma(url, k, r.value)
  {
    var pieces := Split(url, ',');
    if |pieces| >= 2 then
      SecondPieceFollowsFirstComma(url);
      assert url[|pieces[0]|] == ',';
      Some(pieces[1])
    else
      assert url == pieces[0];
      None
  }

  /** Where `split` puts its second piece: just past the first comma. */
  lemma SecondPieceFollowsFirstComma(url: string)
    requires |Split(url, ',')| >= 2
    ensures PieceAfterFirstComma(url, |Split(url, ',')[0]|, Split(url, ',')[1])
  {
    var pieces := Split(url, ',');
    var k := |pieces[0]|;
    var rest := Join(pieces[1..], ',');
    assert url == pieces[0] + [','] + rest;
    assert url[..k] == pieces[0];
    assert url[k + 1..] == rest;
    if |pieces| == 2 {
      assert rest == pieces[1];
    } else {
      assert pieces[1..][1..] == pieces[2..];
      assert rest == pieces[1] + [','] + Join(pieces[2..], ',');
      assert rest[|pieces[1]|] == ',';
    }
    assert rest[..|pieces[1]|] == pieces[1];
    assert url[k + 1..k + 1 + |pieces[1]|] == pieces[1];
  }

  /** A comma-free opening of `s` that ends at a comma or at the end of `s`
      is the first piece `split` returns. */
  lemma FirstPieceOf(s: string, p: string)
    requires |p| <= |s| && s[..|p|] == p && ',' !in p
    requires |p| == |s| || s[|p|] == ','
    ensures Split(s, ',')[0] == p
  {
    if |p| == |s| {
      assert s == p;
      SplitNoSep(p, ',');
    } else {
      assert s == p + [','] + s[|p| + 1..];
      SplitAfterPiece(p, s[|p| + 1..], ',');
    }
  }

  /** Conversely, a piece after the first comma is the one `split` returns
      second. */
  lemma PieceAfterFirstCommaIsSecondPiece(url: string, k: int, p: string)
    requires PieceAfterFirstComma(url, k, p)
    ensures |Split(url, ',')| >= 2 && Split(url, ',')[0] == url[..k] && Split(url, ',')[1] == p
  {
    var head, tail := url[..k], url[k + 1..];
    assert url == head + [','] + tail;
    SplitAfterPiece(head, tail, ',');
    assert tail[..|p|] == url[k + 1..k + 1 + |p|];
    FirstPieceOf(tail, p);
  }

  /** The first comma and the piece after it are determined by the URL, so
      `DataUrlPayload` names one string. */
  lemma PieceAfterFirstCommaUnique(url: string, k1: int, p1: string, k2: int, p2: string)
    requires PieceAfterFirstComma(url, k1, p1) && PieceAfterFirstComma(url, k2, p2)
    ensures k1 == k2 && p1 == p2
  {
    PieceAfterFirstCommaIsSecondPiece(url, k1, p1);
    PieceAfterFirstCommaIsSecondPiece(url, k2, p2);
  }

  /** The data URL of a base64 payload with the given media type. */
  function DataUrl(mimeType: string, payload: string): string {
    "data:" + mimeType + ";base64," + payload
  }

  /** The payload is recovered from the data URL whenever neither the media
      type nor the base64 text holds a comma (base64 never does). */
  lemma {:induction false} DataUrlPayloadOfDataUrl(mimeType: string, payload: string)
    requires ',' !in mimeType && ',' !in payload
    ensures DataUrlPayload(DataUrl(mimeType, payload)) == Some(payload)
  {
    var head := "data:" + mimeType + ";base64";
    assert ',' !in head by {
      assert forall i :: 0 <= i < |head| ==> head[i] == ',' ==> (5 <= i < 5 + |mimeType| && mimeType[i - 5] == ',');
    }
    assert DataUrl(mimeType, payload) == head + [','] + payload;
    SplitAfterPiece(head, payload, ',');
    SplitNoSep(payload, ',');
  }

  /** `handleFileChange`: the first picked file, if any, is rejected when
      larger than 10 MiB; otherwise it is read, and when `FileReader`
      produced a data URL (`dataUrl` is `None` for a failed or aborted read)
      its name and type are copied and the payload is cut from that URL. */
  function HandleFileChange(file: Option<PickedFile>, dataUrl: Option<string>): (r: Intake)
    ensures r.NoFile? <==> file.None?
    ensures r.TooLarge? <==> file.Some? && file.value.size > 10485760
    ensures r.ReadFailed? <==> file.Some? && file.value.size <= 10485760 && dataUrl.None?
    ensures r.Attached? ==>
      && r.attachment.name == file.value.name
      && r.attachment.mimeType == file.value.mimeType
      && r.attachment.data == DataUrlPayload(dataUrl.value)
  {
    if file.None? then NoFile
    else if file.value.size > MaxFileBytes then TooLarge
    else if dataUrl.None? then ReadFailed
    else Attached(Attachment(file.value.name, file.value.mimeType, DataUrlPayload(dataUrl.value)))
  }

  /** The gate is inclusive: exactly 10 MiB passes, one byte more does not. */
  lemma SizeBoundary(name: string, mimeType: string, payload: string)
    requires ',' !in mimeType && ',' !in payload
    ensures HandleFileChange(Some(PickedFile(name, mimeType, 10485760)), Some(DataUrl(mimeType, payload)))
         == Attached(Attachment(name, mimeType, Some(payload)))
    ensures HandleFileChange(Some(PickedFile(name, mimeType, 10485761)), Some(DataUrl(mimeType, payload))) == TooLarge
  {
    DataUrlPayloadOfDataUrl(mimeType, payload);
  }

  /** `(value || attachment)`: whether Clear All is rendered. Untrimmed:
      whitespace-only text still shows it. */
  predicate ClearAllShown(value: string, attachment: Option<Attachment>) {
    value != "" || attachment.Some?
  }

  /** `attachment.mimeType.includes('image')`: the image icon, else the document icon. */
  predicate ShowsImageIcon(mimeType: string) {
    Contains(mimeType, "image")
  }

  /** The kind label under the file name. */
  function KindLabel(mimeType: string): (shown: string)
    ensures shown == "PDF Document" || shown == "Image File"
  {
    if Contains(mimeType, "pdf") then "PDF Document" else "Image File"
  }

  /** The label says "PDF Document" exactly when the type mentions "pdf", at any position. */
  lemma KindLabelIffPdf(mimeType: string)
    ensures KindLabel(mimeType) == "PDF Document" <==> exists i :: OccursAt(mimeType, "pdf", i)
  {
    ContainsIffOccurs(mimeType, "pdf");
  }

  /** The icon is the image icon exactly when the type mentions "image", at any position. */
  lemma ImageIconIffImage(mimeType: string)
    ensures ShowsImageIcon(mimeType) <==> exists i :: OccursAt(mimeType, "image", i)
  {
    ContainsIffOccurs(mimeType, "image");
  }

  /** The two tests are independent: a type that names neither gets the
      document icon together with the "Image File" label. */
  lemma UnknownTypeMixedSignals()
    ensures !ShowsImageIcon("") && KindLabel("") == "Image File"
  {
  }

  /** A PNG screenshot gets the image icon. */
  lemma PngShowsImageIcon()
    ensures ShowsImageIcon("image/png")
  {
    assert "image" <= "image/png";
  }

  /** A PDF gets the "PDF Document" label. */
  lemma PdfLabel()
    ensures KindLabel("application/pdf") == "PDF Document"
  {
    assert "application/pdf" == "application/" + "pdf" + "";
    ContainsInConcat("application/", "pdf", "", "pdf");
  }

  /** A PDF gets the document icon: "image" needs an 'm', which the type lacks. */
  lemma PdfShowsDocumentIcon()
    ensures !ShowsImageIcon("application/pdf")
  {
    var t := "application/pdf";
    assert forall k :: 0 <= k < |t| ==> t[k] != "image"[1];
    ContainsNeedsChar(t, "image", 1);
  }
}
