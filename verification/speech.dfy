/** The part of `speakText` between the network reply and the audio device:
    the optional-chain lookup of the base64 payload, the decode into a 24 kHz
    mono buffer and the collapse of every failure into one message. The reply
    of the text-to-speech call and the browser's `atob` are parameters. */
module Speech {
  import opened Wrappers
  import opened Pcm

  /** The slice of the SDK's response shape the lookup walks; every field may
      be absent, as `?.` allows. */
  datatype InlineAudio = InlineAudio(data: Option<string>)
  datatype ContentPart = ContentPart(inlineData: Option<InlineAudio>)
  datatype Content = Content(parts: Option<seq<ContentPart>>)
  datatype Candidate = Candidate(content: Option<Content>)
  datatype SpeechResponse = SpeechResponse(candidates: Option<seq<Candidate>>)

  /** What `await ai.models.generateContent(...)` does: resolve with a response or throw. */
  datatype SpeechReply = Replied(response: SpeechResponse) | Threw

  /** The message every failure of `speakText` is rethrown with. */
  const SpeechFailed: string := "Failed to generate speech."

  /** `xs?.[0]`: undefined for a missing or empty array. */
  function First<T>(xs: Option<seq<T>>): (r: Option<T>)
    ensures r.Some? <==> xs.Some? && |xs.value| > 0
    ensures r.Some? ==> r.value == xs.value[0]
  {
    if xs.Some? && |xs.value| > 0 then Some(xs.value[0]) else None
  }

  /** `response.candidates?.[0]?.content?.parts?.[0]?.inlineData?.data`, kept
      only when it is a non-empty string (`!base64Audio` rejects ""). */
  function AudioPayload(resp: SpeechResponse): (r: Option<string>)
    ensures r.Some? ==> r.value != ""
  {
    var candidate := First(resp.candidates);
    if candidate.None? || candidate.value.content.None? then None
    else
      var part := First(candidate.value.content.value.parts);
      if part.None? || part.value.inlineData.None? then None
      else
        var data := part.value.inlineData.value.data;
        if data.None? || data.value == "" then None else data
  }

  /** The smallest response that carries `data` where the lookup reads it. */
  function ResponseWith(data: string): SpeechResponse {
    SpeechResponse(Some([Candidate(Some(Content(Some([ContentPart(Some(InlineAudio(Some(data))))]))))]))
  }

  /** The lookup finds exactly what was put in the first part of the first
      candidate, and treats an empty payload as none. */
  lemma AudioPayloadOfResponse(data: string)
    ensures AudioPayload(ResponseWith(data)) == (if data == "" then None else Some(data))
  {
  }

  /** Only the first candidate and its first part are consulted: anything
      after them never changes the payload. */
  lemma AudioPayloadIgnoresRest(c: Candidate, more: seq<Candidate>, p: ContentPart, moreParts: seq<ContentPart>)
    ensures AudioPayload(SpeechResponse(Some([c] + more))) == AudioPayload(SpeechResponse(Some([c])))
    ensures AudioPayload(SpeechResponse(Some([Candidate(Some(Content(Some([p] + moreParts))))])))
         == AudioPayload(SpeechResponse(Some([Candidate(Some(Content(Some([p]))))])))
  {
  }

  /** There is no payload exactly when some link of the chain is missing
      (an absent field, an empty array) or the data is the empty string. */
  lemma AudioPayloadMissing(resp: SpeechResponse)
    ensures AudioPayload(resp).None? <==>
      || resp.candidates.None? || resp.candidates.value == []
      || resp.candidates.value[0].content.None?
      || resp.candidates.value[0].content.value.parts.None?
      || resp.candidates.value[0].content.value.parts.value == []
      || resp.candidates.value[0].content.value.parts.value[0].inlineData.None?
      || resp.candidates.value[0].content.value.parts.value[0].inlineData.value.data.None?
      || resp.candidates.value[0].content.value.parts.value[0].inlineData.value.data.value == ""
  {
  }

  /** Why synthesis stopped short of playback; `NoAudioData` is the
      "No audio data received" error thrown inside the try block,
      `OddByteLength` the `Int16Array` error and `EmptyAudio` the
      `createBuffer` error for zero samples. */
  datatype SpeechError = RequestFailed | NoAudioData | InvalidBase64 | OddByteLength | EmptyAudio

  /** The outcome of the try block: the buffer handed to the audio source, or
      the cause of the exception. */
  datatype Synthesis = Playable(buffer: AudioBuffer) | Stopped(cause: SpeechError)

  /** The try block of `speakText` up to `source.buffer = audioBuffer`.
      `atob` returns `None` where the browser throws on malformed base64;
      an odd byte count makes `new Int16Array` throw, and no bytes at all
      (a payload of base64 whitespace) make `createBuffer` throw. */
  function Synthesize(reply: SpeechReply, atob: string -> Option<seq<Byte>>): (s: Synthesis)
    ensures s.Playable? <==>
      && reply.Replied?
      && AudioPayload(reply.response).Some?
      && atob(AudioPayload(reply.response).value).Some?
      && |atob(AudioPayload(reply.response).value).value| % 2 == 0
      && |atob(AudioPayload(reply.response).value).value| > 0
    ensures s.Playable? ==>
      s.buffer.sampleRate == 24000 && s.buffer.channels == 1
      && |s.buffer.samples| == |atob(AudioPayload(reply.response).value).value| / 2
    ensures s == Stopped(NoAudioData) <==> reply.Replied? && AudioPayload(reply.response).None?
    ensures s == Stopped(EmptyAudio) <==>
      reply.Replied? && AudioPayload(reply.response).Some? && atob(AudioPayload(reply.response).value) == Some([])
  {
    if reply.Threw? then Stopped(RequestFailed)
    else
      var payload := AudioPayload(reply.response);
      if payload.None? then Stopped(NoAudioData)
      else
        var bytes := atob(payload.value);
        if bytes.None? then Stopped(InvalidBase64)
        else
          DecodeAudioShape(bytes.value);
          var buffer := DecodeAudio(bytes.value);
          if |bytes.value| % 2 != 0 then Stopped(OddByteLength)
          else if buffer.None? then Stopped(EmptyAudio)
          else Playable(buffer.value)
  }

  /** `speakText`: the buffer it plays, or the single failure message it rethrows. */
  function SpeakText(reply: SpeechReply, atob: string -> Option<seq<Byte>>): (r: Result<AudioBuffer>)
    ensures r.Failure? ==> r.error == SpeechFailed
    ensures r.Success? <==> Synthesize(reply, atob).Playable?
    ensures r.Success? ==> r.value.sampleRate == 24000 && r.value.channels == 1
  {
    match Synthesize(reply, atob)
    case Playable(buffer) => Success(buffer)
    case Stopped(_) => Failure(SpeechFailed)
  }

  /** Whatever went wrong, the caller sees the same message: the internal
      "No audio data received" and the request's own error are both replaced. */
  lemma SpeechFailuresLookAlike(r1: SpeechReply, r2: SpeechReply, atob: string -> Option<seq<Byte>>)
    requires SpeakText(r1, atob).Failure? && SpeakText(r2, atob).Failure?
    ensures SpeakText(r1, atob) == SpeakText(r2, atob)
  {
  }

  /** A reply without a payload fails, even when the request itself succeeded. */
  lemma MissingPayloadFails(resp: SpeechResponse, atob: string -> Option<seq<Byte>>)
    requires AudioPayload(resp).None?
    ensures SpeakText(Replied(resp), atob) == Failure(SpeechFailed)
  {
  }

  /** A reply whose payload decodes to a positive even number of bytes is
      played as the decoding of those bytes. */
  lemma SynthesizeDecodes(reply: SpeechReply, atob: string -> Option<seq<Byte>>, bytes: seq<Byte>)
    requires reply.Replied? && AudioPayload(reply.response).Some?
    requires atob(AudioPayload(reply.response).value) == Some(bytes) && |bytes| % 2 == 0 && |bytes| > 0
    ensures DecodeAudio(bytes).Some?
    ensures SpeakText(reply, atob) == Success(DecodeAudio(bytes).value)
  {
  }

  /** A payload that decodes to no bytes at all, such as a string of base64
      whitespace, passes the emptiness test but still fails. */
  lemma SpeakNoBytesFails(reply: SpeechReply, atob: string -> Option<seq<Byte>>)
    requires reply.Replied? && AudioPayload(reply.response).Some?
    requires atob(AudioPayload(reply.response).value) == Some([])
    ensures Synthesize(reply, atob) == Stopped(EmptyAudio)
    ensures SpeakText(reply, atob) == Failure(SpeechFailed)
  {
  }

  /** A reply whose payload decodes to the encoding of one or more int16
      samples plays exactly those samples, scaled, at 24 kHz mono. */
  lemma SpeakSomeSamples(reply: SpeechReply, atob: string -> Option<seq<Byte>>, vs: seq<Int16>)
    requires reply.Replied? && AudioPayload(reply.response).Some?
    requires vs != [] && atob(AudioPayload(reply.response).value) == Some(EncodePcm(vs))
    ensures SpeakText(reply, atob) == Success(AudioBuffer(24000, 1, ScaleAll(vs)))
  {
    DecodeAudioOfEncoding(vs);
  }

  /** End to end: a reply carrying the base64 text of int16 samples plays
      exactly those samples over 32768, in order, at 24 kHz mono, and fails
      with the single message when there are none. */
  lemma SpeakEncodedSamples(vs: seq<Int16>, data: string, atob: string -> Option<seq<Byte>>)
    requires data != "" && atob(data) == Some(EncodePcm(vs))
    ensures vs != [] ==>
      SpeakText(Replied(ResponseWith(data)), atob) == Success(AudioBuffer(24000, 1, ScaleAll(vs)))
    ensures vs == [] ==> SpeakText(Replied(ResponseWith(data)), atob) == Failure(SpeechFailed)
  {
    AudioPayloadOfResponse(data);
    if vs != [] {
      SpeakSomeSamples(Replied(ResponseWith(data)), atob, vs);
    } else {
      DecodeAudioOfNothing();
      SpeakNoBytesFails(Replied(ResponseWith(data)), atob);
    }
  }
}
