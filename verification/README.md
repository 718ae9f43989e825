# Clarify core in Dafny

Clarify is a single-page app that rewrites assignment instructions into plainer
English. It can also read the result aloud. This project models the
deterministic core behind that page:

- **Composer** (`composer.dfy`): `simplifyText`'s prompt composer.
  - It turns the input text, an optional attachment and the option record
    (level, examples, deadlines) into a request.
  - That request is a system instruction, a temperature and an ordered list
    of content parts.
  - It returns no request at all when there is nothing to simplify.
- **Simplify** (`simplify.dfy`): the rest of `simplifyText`. This covers the
  fallback text for an empty model answer and the single message a failed
  call is rethrown with.
- **Pcm** (`pcm.dfy`): the byte-to-sample decoder of `decodeAudioData`.
  - Bytes are paired into little-endian signed 16-bit values and scaled by
    1/32768.
  - The result is a 24 kHz mono buffer of exact `real` samples.
  - An encoder is included as its inverse.
- **Speech** (`speech.dfy`): the speech path of `speakText`.
  - The optional-chain lookup of the audio payload.
  - The decode.
  - The collapse of every failure into "Failed to generate speech.".
- **InputArea** (`input_area.dfy`): the input panel's rules.
  - The 10 MiB size gate.
  - The payload cut from the `data:<mime>;base64,<data>` URL (section 3 of
    RFC 2397) with `split(',')[1]`.
  - When Clear All is rendered.
  - The MIME-based icon and label.
- **OptionsPanel** (`options_panel.dfy`): `handleChange` as a single-field
  record update, and the radio list's exactly-one-checked rule.
- **OutputDisplay** (`output_display.dfy`): the Read Aloud and Copy guards,
  the three-way view and the Read Aloud caption.
- **Shell** (`shell.dfy`): the application state.
  - Its initial value.
  - `handleSimplify` and `handleSpeak` as atomic transitions.
  - The Simplify-button predicate.
  - An event machine with an invariant proved for every trace from the
    initial page.
- **Shared modules** (`wrappers.dfy`, `types.dfy`, `text.dfy`):
  - `Option` and `Result`.
  - The level enum, option record and attachment record.
  - JavaScript's `trim`, `includes` and one-character `split`/`join` over
    strings as character sequences.

Network replies, `atob` and the data URL `FileReader` produces are
parameters: the model states what the code does with whatever they return.

Some readings of the code:

- **`trim` whitespace**: `trim` removes exactly the ECMAScript WhiteSpace and
  LineTerminator characters (`Text.IsWhitespace`).
- **Attachment payload**: the payload is `split(',')[1]`. That is the piece
  between the first and the second comma, or `undefined` (`None`) when the
  URL has no comma. It is not "everything after the first comma". Base64
  never contains a comma, so for well-formed data URLs the two agree
  (`InputArea.DataUrlPayloadOfDataUrl`).
- **Odd byte count**: an odd number of decoded audio bytes makes
  `new Int16Array(bytes.buffer)` throw. The model treats it as a speech
  failure.
- **No bytes at all**: a payload that passes `!base64Audio` can still decode
  to zero bytes (a string of base64 whitespace, for one). Then
  `createBuffer(1, 0, 24000)` throws, since the Web Audio API requires a
  length of at least 1. The model treats that as a speech failure too
  (`Speech.SpeakNoBytesFails`).
- **Failed file read**: when `FileReader` fails, `reader.result` is `null`
  and `result.split(',')` throws inside `onloadend`. Nothing is attached
  (`InputArea.HandleFileChange` returns `ReadFailed`).

## Model

| member | source | states |
|---|---|---|
| Types.LevelLabelInjective | types.ts:1-5 | the three enum strings are pairwise distinct, so the label shown for a level identifies it |
| Text.TrimEmptyIffBlank | services/geminiService.ts:13 | `text.trim()` is empty exactly when every character of `text` is whitespace |
| Text.TrimStart | services/geminiService.ts:13 | the result is the suffix left after a blank prefix, and it does not start with whitespace |
| Text.TrimEnd | services/geminiService.ts:13 | the result is the prefix left before a blank suffix, and it does not end with whitespace |
| Text.ContainsIffOccurs | components/InputArea.tsx:105 | `includes` holds exactly when the substring occurs at some position |
| Text.Split | components/InputArea.tsx:52 | `split(sep)` yields at least one piece, no piece holds the separator, and joining the pieces gives the input back |
| Text.SplitJoin | components/InputArea.tsx:52 | splitting a join of separator-free pieces returns those pieces |
| Composer.Compose | services/geminiService.ts:13-66 | no request exactly for blank text without an attachment; otherwise the fixed system instruction and temperature 0.3, 2 parts with an attachment and 1 without, the attachment's type and data unchanged in an inline part first, the text part last and opening with the full rules text `Instructions(o)` (so with the header and the selected level block), ending with the intro line "Input Text to Simplify:" and the quoted untrimmed text when it is non-blank (even with an attachment) and with the attached-document note otherwise, and exactly as long as the rules text plus that closing, so nothing else lies between them |
| Composer.Instructions | services/geminiService.ts:17-42 | the rules text for an option record; what it holds is stated by `Composer.LevelBlockFirst`, `DeadlineLinePlacement`, `TakeExampleBlock`, `ParseInstructionsInverse` and `InstructionsInjective` |
| Composer.PromptTail | services/geminiService.ts:59-64 | what follows the rules text: the quoted input or the attachment note; stated by `Composer.PromptShape` and `Composer.Compose` |
| Composer.PromptShape | services/geminiService.ts:58-64 | the prompt opens with header and level block, closes with the intro line and `"text"` for non-blank text or with the attachment note, and its length is the rules text's plus that closing's |
| Composer.Parts | services/geminiService.ts:46-66 | the attachment as an inline part first when there is one, then the prompt as the last, text part |
| Composer.LevelBlockFirst | services/geminiService.ts:17-29 | header followed by a level block opens the rules text exactly for the selected level, so only that block follows the header |
| Composer.LevelBlockInjective | services/geminiService.ts:19-29 | the three level blocks are distinct |
| Composer.DeadlineLinePlacement | services/geminiService.ts:31-33 | the deadline line stands right before the optional example block exactly when deadlines are highlighted |
| Composer.TakeExampleBlock | services/geminiService.ts:35-42 | the rules text ends with the example block exactly when examples are on, and the block is last |
| Composer.ParseInstructionsInverse | services/geminiService.ts:17-42 | the option record can be read back from the rules text: header, one level block, deadline line, example block in that order |
| Composer.InstructionsInjective | services/geminiService.ts:17-42 | distinct option records give distinct rules texts, so the 3 x 2 x 2 combinations give 12 different texts |
| Composer.ExampleHeadingPresent | services/geminiService.ts:35-42 | with examples on, the rules text contains `### Example` |
| Simplify.ReplyText | services/geminiService.ts:78 | the result is never empty; a non-empty answer is returned unchanged and a missing or empty one becomes the fallback |
| Simplify.ReplyTextIdempotent | services/geminiService.ts:78 | mapping an already mapped answer changes nothing |
| Simplify.SimplifyText | services/geminiService.ts:8-83 | `""` exactly when there is nothing to simplify; failure exactly when a request was sent and the call threw, always with the fixed message; otherwise the mapped answer |
| Simplify.SimplifyReturnsAnswer | services/geminiService.ts:78 | for a sent request a non-empty answer comes back unchanged and an empty one as the fallback |
| Pcm.Int16At | services/geminiService.ts:99 | a byte pair denotes a signed 16-bit value congruent to `lo + 256*hi` modulo 65536 |
| Pcm.Int16sAt | services/geminiService.ts:99 | the view has half as many integers as bytes, integer `i` being the value of bytes `2i` and `2i+1` |
| Pcm.ScaleRange | services/geminiService.ts:107 | every int16 over 32768 lies in [-1, 1) |
| Pcm.DecodeAudio | services/geminiService.ts:90-108 | the buffer `decodeAudioData` returns, or none where it throws; stated by `Pcm.DecodeAudioShape`, `DecodeAudioOfEncoding`, `DecodeAudioOfNothing` and computed by `Pcm.DecodePcm` |
| Pcm.DecodeAudioShape | services/geminiService.ts:90-108 | decoding fails exactly for an odd byte count (the `Int16Array` error) and for no bytes at all (the `createBuffer` error for length 0); otherwise 24000 Hz, 1 channel, half as many samples as bytes, sample `i` from bytes `2i`, `2i+1` over 32768, all in [-1, 1) |
| Pcm.DecodeAppend | services/geminiService.ts:106-108 | decoding a concatenation decodes the parts in order: output order follows input order |
| Pcm.DecodeEncode | services/geminiService.ts:99 | reading back the little-endian encoding of int16 values gives those values |
| Pcm.EncodeDecode | services/geminiService.ts:99 | encoding the integers read from an even-length buffer gives the buffer back |
| Pcm.DecodeAudioOfEncoding | services/geminiService.ts:99-108 | decoding the encoding of one or more int16 values yields those values over 32768, at 24 kHz mono |
| Pcm.DecodeAudioOfNothing | services/geminiService.ts:99-103 | encoding no values gives no bytes, and no bytes give no buffer |
| Pcm.DecodePcm | services/geminiService.ts:90-108 | the sample loop, with its early exits for an odd count and for zero samples, computes the buffer the decoding function describes |
| Speech.First | services/geminiService.ts:128 | `?.[0]` is defined exactly for a present non-empty array, and is its first element |
| Speech.AudioPayload | services/geminiService.ts:128-131 | the payload found is never empty |
| Speech.AudioPayloadOfResponse | services/geminiService.ts:128-131 | the lookup returns the data stored in the first part of the first candidate, and none for an empty string |
| Speech.AudioPayloadIgnoresRest | services/geminiService.ts:128 | later candidates and later parts never change the payload |
| Speech.AudioPayloadMissing | services/geminiService.ts:128-131 | there is no payload exactly when some link of the chain is missing: no or an empty candidate list, no content, no or an empty part list, no `inlineData`, no `data`, or `data` is the empty string |
| Speech.Synthesize | services/geminiService.ts:99-140 | playback is reached exactly when the call replied, a payload was found, it decodes from base64 and has a positive even byte count; the buffer is 24 kHz mono with one sample per byte pair; the no-payload cause arises exactly for a reply without payload, and the empty-buffer cause exactly for a payload that decodes to no bytes |
| Speech.SpeakText | services/geminiService.ts:113-147 | every failure carries "Failed to generate speech."; success exactly when synthesis reached playback (so never for an odd or zero byte count), always 24 kHz mono |
| Speech.SpeechFailuresLookAlike | services/geminiService.ts:144-146 | any two failures are indistinguishable to the caller |
| Speech.MissingPayloadFails | services/geminiService.ts:130-131 | a reply without payload fails with the single message, even though the call itself succeeded |
| Speech.SynthesizeDecodes | services/geminiService.ts:128-140 | a reply whose payload decodes to a positive even number of bytes is played as the decoding of those bytes |
| Speech.SpeakNoBytesFails | services/geminiService.ts:99-146 | a payload that decodes to no bytes stops at the empty buffer and fails with the single message |
| Speech.SpeakSomeSamples | services/geminiService.ts:99-140 | any reply whose payload decodes to the encoding of one or more int16 samples plays exactly those samples over 32768 at 24 kHz mono |
| Speech.SpeakEncodedSamples | services/geminiService.ts:113-147 | a reply carrying encoded int16 samples plays exactly those samples over 32768 when there is at least one, and fails with the single message when there are none |
| InputArea.DataUrlPayload | components/InputArea.tsx:51-52 | a payload exists exactly when the URL has a comma, and it is the comma-free piece running from just past the first comma to the next comma or the end |
| InputArea.SecondPieceFollowsFirstComma | components/InputArea.tsx:52 | the second piece of `split(',')` lies just past the first comma and runs to the next comma or the end |
| InputArea.PieceAfterFirstCommaIsSecondPiece | components/InputArea.tsx:52 | conversely, any such piece after the first comma is the second piece of `split(',')` |
| InputArea.PieceAfterFirstCommaUnique | components/InputArea.tsx:52 | the first comma and the piece after it are unique, so the payload is one determined string |
| InputArea.DataUrlPayloadOfDataUrl | components/InputArea.tsx:52 | the base64 payload of a `data:<mime>;base64,<data>` URL is recovered when the type has no comma |
| InputArea.HandleFileChange | components/InputArea.tsx:38-58 | nothing without a file; rejection exactly above 10485760 bytes; a failed read exactly for a file within the limit whose read produced no data URL; otherwise name and type copied unchanged and data cut from the data URL |
| InputArea.SizeBoundary | components/InputArea.tsx:43 | 10485760 bytes is accepted with the payload, 10485761 rejected |
| InputArea.ClearAllShown | components/InputArea.tsx:77 | whether Clear All is rendered; stated by `Shell.ClearAllEmpties` (Clear All hides itself once used) |
| InputArea.ShowsImageIcon | components/InputArea.tsx:105 | whether the image icon is shown; stated by `InputArea.ImageIconIffImage`, `PngShowsImageIcon`, `PdfShowsDocumentIcon` and `UnknownTypeMixedSignals` |
| InputArea.KindLabel | components/InputArea.tsx:110 | the label is one of "PDF Document" and "Image File" |
| InputArea.KindLabelIffPdf | components/InputArea.tsx:110 | "PDF Document" exactly when "pdf" occurs in the type |
| InputArea.ImageIconIffImage | components/InputArea.tsx:105 | the image icon exactly when "image" occurs in the type |
| InputArea.PngShowsImageIcon | components/InputArea.tsx:105 | an `image/png` file gets the image icon |
| InputArea.PdfLabel | components/InputArea.tsx:110 | an `application/pdf` file gets the "PDF Document" label |
| InputArea.PdfShowsDocumentIcon | components/InputArea.tsx:105 | an `application/pdf` file gets the document icon |
| InputArea.UnknownTypeMixedSignals | components/InputArea.tsx:105-110 | an empty type gets the document icon together with the "Image File" label |
| OptionsPanel.Apply | components/OptionsPanel.tsx:12-14 | a change sets exactly its own field to the new value and keeps the other two |
| OptionsPanel.ApplyThenRead | components/OptionsPanel.tsx:12-14 | after a change the record holds the value written |
| OptionsPanel.ApplyCurrentIsIdentity | components/OptionsPanel.tsx:12-14 | writing the current value is the identity |
| OptionsPanel.ApplyIdempotent | components/OptionsPanel.tsx:12-14 | applying the same change twice equals applying it once |
| OptionsPanel.ApplyCommutes | components/OptionsPanel.tsx:40-86 | changes from different controls commute; of two changes to the same key the later wins |
| OptionsPanel.CheckedFlags | components/OptionsPanel.tsx:39 | one checked flag per listed level |
| OptionsPanel.ExactlyOneChecked | components/OptionsPanel.tsx:26-39 | all three levels are listed once each, and exactly one entry is checked, the record's level |
| OptionsPanel.EntryLabels | components/OptionsPanel.tsx:26-49 | the radio entries show "Very Simple (Middle School)", "Simple (High School)" and "Actionable Bullet Points", in enum order, each the label of its level |
| OptionsPanel.EntryLabelsDistinct | components/OptionsPanel.tsx:26-49 | no two radio entries show the same label |
| OptionsPanel.SelectingChecks | components/OptionsPanel.tsx:39-40 | clicking an entry's radio checks that entry and no other |
| OutputDisplay.ReadAloudEnabled | components/OutputDisplay.tsx:31 | whether Read Aloud accepts a click; stated by `OutputDisplay.ReadAloudNeedsCopyAndQuiet` and `Shell.NoDoubleStart` |
| OutputDisplay.CopyEnabled | components/OutputDisplay.tsx:43 | whether Copy accepts a click; stated by `OutputDisplay.ReadAloudNeedsCopyAndQuiet` and `RenderedIffCopyable` |
| OutputDisplay.ReadAloudNeedsCopyAndQuiet | components/OutputDisplay.tsx:31-43 | Read Aloud is enabled exactly when Copy is and no speech request is in flight; never while the speaking flag is up (it drops once playback starts, so audio may still be playing) |
| OutputDisplay.ViewOf | components/OutputDisplay.tsx:59-73 | exactly one of spinner (whenever loading, whatever the content), placeholder (empty content), rendered content |
| OutputDisplay.RenderedIffCopyable | components/OutputDisplay.tsx:43-73 | the content is rendered exactly when Copy is enabled |
| OutputDisplay.ReadAloudCaption | components/OutputDisplay.tsx:39 | the caption is "Reading..." exactly while speaking, and "Read Aloud" otherwise |
| Shell.InitialInv | App.tsx:11-21 | the page opens with HighSchool, no examples, deadlines highlighted, nothing loading or speaking, Simplify disabled |
| Shell.SimplifyEnabled | App.tsx:96 | Simplify is enabled exactly when not loading and the input is not blank or a file is attached |
| Shell.BeginSimplify | App.tsx:23-32 | nothing to simplify sets only the missing-input error; otherwise loading starts with error and output cleared and nothing else changed |
| Shell.FinishSimplify | App.tsx:34-41 | loading ends; a result becomes the output; a failure keeps the output and sets its message, or "Something went wrong." for an empty one; text, file, options and speaking untouched |
| Shell.HandleSimplify | App.tsx:23-41 | the missing-input error alone for nothing to simplify; otherwise loading ends with the mapped answer and no error, or with empty output and the fixed failure message |
| Shell.SimplifyOutcomeExclusive | App.tsx:34-41 | a completed simplification leaves a non-empty output exactly when there is no error, and never the generic message |
| Shell.BeginSpeak | App.tsx:45-46 | nothing happens for empty output; otherwise only the speaking flag is raised |
| Shell.FinishSpeak | App.tsx:52-54 | only the speaking flag is lowered |
| Shell.HandleSpeak | App.tsx:44-55 | a no-op for empty output; otherwise only the speaking flag changes, ending down whatever the outcome, and the buffer played is the one `speakText` yields, so nothing plays for an odd or zero byte count |
| Shell.SpeechFailureKeepsErrorAndOutput | App.tsx:47-51 | a failed reading changes neither the error nor the output and plays nothing |
| Shell.Enabled | App.tsx:76-131 | which events the page accepts, from the `disabled` props and the conditionally rendered buttons; stated by `Shell.StepInv`, `SettleAfterClick` and `NoDoubleStart` |
| Shell.Step | App.tsx:23-55 | the state after each event; stated by `Shell.StepInv`, `ReachableInv`, `ClearAllEmpties`, `PickFileAttachesOnlyOnRead`, `RemoveFileKeepsText` and `ClickThenSettle` |
| Shell.StepInv | App.tsx:23-96 | every enabled event preserves the invariant: while loading, output and error are clear and there is something to simplify |
| Shell.ReachableInv | App.tsx:11-96 | every state reachable from the initial page satisfies the invariant |
| Shell.ClearAllEmpties | components/InputArea.tsx:77-82 | Clear All empties the text and drops the file, hides itself and disables Simplify |
| Shell.PickFileAttachesOnlyOnRead | components/InputArea.tsx:38-58 | picking a file attaches it, replacing any earlier attachment and changing nothing else, exactly when it passes the size gate and is read; otherwise the state is unchanged |
| Shell.RemoveFileKeepsText | components/InputArea.tsx:114-115 | removing the file changes only the attachment |
| Shell.NoDoubleStart | App.tsx:96 | starting a simplification disables Simplify; starting a speech request raises the flag and disables Read Aloud |
| Shell.SettleAfterClick | App.tsx:23-41 | clicking Simplify is always followed by an enabled settle event, whose result is the handler's finish |
| Shell.ClickThenSettle | App.tsx:23-41 | the event-level click-and-settle ends in the same state as the atomic `handleSimplify` |

## Left out

- The generation and text-to-speech calls (`ai.models.generateContent`) are not modelled. Their replies are parameters (`GenerateReply`, `SpeechReply`). This also leaves out the API key, the model identifiers and the voice name.
- `atob` is a parameter returning the decoded bytes, or `None` where it throws. `FileReader.readAsDataURL` is a parameter supplying the data URL, or `None` for a read that failed.
- Audio playback is left out: `AudioContext` creation, `createBufferSource`, `connect` and `start`. `Speech.Synthesize` stops at the buffer that would be played. An `AudioContext` constructor that throws is not modelled.
- Clipboard paste and copy, `alert`, `console.error` and the "Copied" flag are left out. So are the `setTimeout` calls that clear the error after 3 s and the flag after 2 s. Because the timer is left out, the model does not show that a pending timer from a missing-input error can also clear a later error.
- React rendering, CSS classes, icons, markdown rendering and the static header component are left out.
- Async interleaving is simplified: each handler is one atomic transition. The event machine in `Shell` splits only the two long calls into a click and a settle event. The clipboard read behind Paste is folded into `Edit`.
- Composer.Compose: purity (equal inputs give equal parts) holds by construction, since every member is a Dafny function, so no lemma states it.
- Composer.ExampleHeadingPresent: one direction only. For examples off, absence is stated through the text's structure (`TakeExampleBlock`, `ParseInstructionsInverse`), not as "does not contain `### Example`".
- Composer.DeadlineLinePlacement: states presence and absence through the text's ending. "Does not contain the deadline line" over the whole text is not stated.
- OutputDisplay.ViewOf: that the speaking flag never changes the view holds by construction. `ViewOf` takes no speaking flag, and only `ReadAloudCaption` reads it.
- Pcm.DecodeAudioShape: `Int16Array` uses the platform's byte order, and the model fixes little-endian. Samples are exact reals: every int16 over 2^15 fits a 32-bit float.
- Text.IsWhitespace: JavaScript `trim` is modelled over the fixed ECMAScript whitespace and line-terminator set. Characters outside the Basic Multilingual Plane are never whitespace there.
