/**
 * The conversation held by the home page (src/app/page.tsx): the message
 * record, appending a translation, attaching recorded audio, the audio-free
 * copies written to and read from session storage, and the choice between
 * replaying a recording and text-to-speech.
 */
module Conversation {

  import opened Wrappers
  import opened JsText
  import TranslateRoute

  datatype Side = Left | Right

  /** One `dataavailable` payload of the MediaRecorder; the page only looks at its size. */
  datatype Chunk = Chunk(id: nat, size: nat)

  /** `new Blob(chunks, {type})`: the chunks in order, tagged with the recorder's MIME type. */
  datatype Blob = Blob(parts: seq<Chunk>, mimeType: string)

  datatype Message = Message(
    id: int,
    originalText: string,
    translatedText: string,
    originalLang: string,
    translatedLang: string,
    speakerSide: Side,
    wasRecorded: bool,
    recordedAudio: Option<Blob>)

  // ---------------------------------------------------------------- appending

  /** A translation request as `getTranslation` sends it, with the languages it captured. */
  datatype Request = Request(text: string, fromLanguage: string, toLanguage: string,
                             wasRecorded: bool, audio: Option<Blob>)

  /** The outcome of `fetch` + `response.json()`: an exception, or the decoded body. */
  datatype FetchOutcome = Threw | Received(body: TranslateRoute.ResponseBody)

  /** `data.translatedText` is truthy. */
  predicate Accepted(outcome: FetchOutcome) {
    outcome.Received? && outcome.body.Translated? && outcome.body.translatedText != []
  }

  /** English speakers sit on the right. */
  function SideFor(fromLanguage: string): Side {
    if StartsWith(fromLanguage, "en") then Right else Left
  }

  /**
   * The message list after a translation reply: exactly one new message at the
   * end when the reply carries a non-empty `translatedText`, otherwise unchanged.
   */
  function ApplyReply(messages: seq<Message>, req: Request, outcome: FetchOutcome, id: int): (r: seq<Message>)
    ensures Accepted(outcome) ==> |r| == |messages| + 1 && r[..|messages|] == messages
    ensures Accepted(outcome) ==>
      var m := r[|messages|];
      && m.id == id
      && m.originalText == req.text
      && m.translatedText == outcome.body.translatedText
      && m.originalLang == req.fromLanguage
      && m.translatedLang == req.toLanguage
      && (m.speakerSide == Right <==> StartsWith(req.fromLanguage, "en"))
      && m.wasRecorded == req.wasRecorded
      && m.recordedAudio == req.audio
    ensures !Accepted(outcome) ==> r == messages
  {
    if Accepted(outcome) then
      var m := Message(id, req.text, outcome.body.translatedText, req.fromLanguage,
                       req.toLanguage, SideFor(req.fromLanguage), req.wasRecorded, req.audio);
      messages + [m]
    else
      messages
  }

  /**
   * End to end with the endpoint: the page appends a message exactly when the
   * endpoint answers 200 with a non-empty translation, and that translation has
   * no surrounding whitespace. A model reply of only whitespace appends nothing.
   */
  lemma ServerReplyAppends(messages: seq<Message>, req: Request, id: int,
                           apiKey: Option<string>, body: TranslateRoute.Body,
                           displayName: string -> Option<string>,
                           model: TranslateRoute.Prompt -> Option<string>)
    ensures
      var resp := TranslateRoute.Post(apiKey, body, displayName, model);
      var r := ApplyReply(messages, req, Received(resp.body), id);
      && (|r| == |messages| + 1 <==> resp.status == 200 && resp.body.translatedText != [])
      && (|r| != |messages| + 1 ==> r == messages)
      && (|r| == |messages| + 1 ==> Trimmed(r[|messages|].translatedText))
  {
  }

  // ------------------------------------------------------------ recorded audio

  /** Audio is only ever held by messages that came from the microphone. */
  predicate AudioOnlyIfRecorded(ms: seq<Message>) {
    forall i :: 0 <= i < |ms| ==> ms[i].recordedAudio.Some? ==> ms[i].wasRecorded
  }

  /**
   * The recorder's `onstop`: the blob goes to the last message, and only if
   * that message was recorded; earlier messages and an empty list are untouched.
   */
  function AttachAudio(ms: seq<Message>, blob: Blob): (r: seq<Message>)
    ensures |r| == |ms|
    ensures forall i :: 0 <= i < |ms| - 1 ==> r[i] == ms[i]
    ensures |ms| > 0 ==> r[|ms| - 1].(recordedAudio := ms[|ms| - 1].recordedAudio) == ms[|ms| - 1]
    ensures |ms| > 0 ==>
      r[|ms| - 1].recordedAudio == if ms[|ms| - 1].wasRecorded then Some(blob) else ms[|ms| - 1].recordedAudio
  {
    if ms == [] || !ms[|ms| - 1].wasRecorded then ms
    else ms[|ms| - 1 := ms[|ms| - 1].(recordedAudio := Some(blob))]
  }

  /** Neither appending (without audio, or from the microphone) nor attaching breaks the audio invariant. */
  lemma AudioInvariantPreserved(ms: seq<Message>, blob: Blob, req: Request, outcome: FetchOutcome, id: int)
    requires AudioOnlyIfRecorded(ms)
    requires req.audio.Some? ==> req.wasRecorded
    ensures AudioOnlyIfRecorded(AttachAudio(ms, blob))
    ensures AudioOnlyIfRecorded(ApplyReply(ms, req, outcome, id))
  {
    var a := AttachAudio(ms, blob);
    forall i | 0 <= i < |a| && a[i].recordedAudio.Some? ensures a[i].wasRecorded {
      if i < |ms| - 1 {
        assert a[i] == ms[i];
      } else {
        assert a[i].wasRecorded == ms[i].wasRecorded;
      }
    }
  }

  // -------------------------------------------------------------- persistence

  const MessagesKey := "nao-translator-messages"
  const FromLanguageKey := "nao-translator-from-lang"
  const ToLanguageKey := "nao-translator-to-lang"

  /** No message holds audio. */
  predicate NoAudio(ms: seq<Message>) {
    forall i :: 0 <= i < |ms| ==> ms[i].recordedAudio.None?
  }

  /** `ms.map(msg => ({...msg, recordedAudio: undefined}))`: same order, same fields, no audio. */
  function StripAudio(ms: seq<Message>): (r: seq<Message>)
    ensures |r| == |ms|
    ensures forall i :: 0 <= i < |ms| ==> r[i] == ms[i].(recordedAudio := None)
  {
    if ms == [] then [] else [ms[0].(recordedAudio := None)] + StripAudio(ms[1..])
  }

  /** Stripping leaves no audio, and stripping twice is stripping once. */
  lemma StripAudioIdempotent(ms: seq<Message>)
    ensures NoAudio(StripAudio(ms))
    ensures StripAudio(StripAudio(ms)) == StripAudio(ms)
  {
  }

  /** A list without audio is stored as it is. */
  lemma StripAudioOfNoAudio(ms: seq<Message>)
    requires NoAudio(ms)
    ensures StripAudio(ms) == ms
  {
    assert forall i :: 0 <= i < |ms| ==> ms[i].(recordedAudio := None) == ms[i];
  }

  /** Stripping distributes over appending, so the saved list grows with the conversation. */
  lemma {:induction false} StripAudioAppend(a: seq<Message>, b: seq<Message>)
    ensures StripAudio(a + b) == StripAudio(a) + StripAudio(b)
  {
    if a != [] {
      assert (a + b)[1..] == a[1..] + b;
      StripAudioAppend(a[1..], b);
    }
  }

  /** Attaching audio is invisible to what is saved: the page need not save again. */
  lemma AttachAudioNotPersisted(ms: seq<Message>, blob: Blob)
    ensures StripAudio(AttachAudio(ms, blob)) == StripAudio(ms)
  {
    var a := AttachAudio(ms, blob);
    forall i | 0 <= i < |ms| ensures StripAudio(a)[i] == StripAudio(ms)[i] {
      if i == |ms| - 1 {
        assert a[i].(recordedAudio := None) == ms[i].(recordedAudio := None);
      }
    }
  }

  /** `JSON.stringify` and `JSON.parse` as the page uses them on message lists; parse is None where it throws. */
  datatype JsonCodec = JsonCodec(stringify: seq<Message> -> string, parse: string -> Option<seq<Message>>)

  /** What a faithful JSON gives: non-empty text, and parse undoes stringify on audio-free lists. */
  ghost predicate FaithfulJson(codec: JsonCodec) {
    forall ms :: NoAudio(ms) ==> codec.stringify(ms) != [] && codec.parse(codec.stringify(ms)) == Some(ms)
  }

  /** The save effect: the audio-free list under the messages key, every other key kept. */
  function SaveMessages(storage: map<string, string>, ms: seq<Message>, codec: JsonCodec): (r: map<string, string>)
    ensures r.Keys == storage.Keys + {MessagesKey}
    ensures forall k :: k in storage && k != MessagesKey ==> r[k] == storage[k]
    ensures r[MessagesKey] == codec.stringify(StripAudio(ms))
  {
    storage[MessagesKey := codec.stringify(StripAudio(ms))]
  }

  /** What the mount-time load applies: a message list and each language, where present. */
  datatype Restored = Restored(messages: Option<seq<Message>>, fromLanguage: Option<string>,
                               toLanguage: Option<string>)

  /** A stored value that `sessionStorage.getItem` returns and that is truthy. */
  predicate StoredNonEmpty(storage: map<string, string>, key: string) {
    key in storage && storage[key] != []
  }

  /** The load throws (a stored message list that does not parse) and applies nothing. */
  predicate RestoreThrows(storage: map<string, string>, codec: JsonCodec) {
    StoredNonEmpty(storage, MessagesKey) && codec.parse(storage[MessagesKey]).None?
  }

  /**
   * The mount-time load. A non-empty stored list is parsed and stripped of
   * audio; a stored language is applied only when non-empty; a list that does
   * not parse aborts the whole load, languages included.
   */
  function Restore(storage: map<string, string>, codec: JsonCodec): (r: Restored)
    ensures RestoreThrows(storage, codec) ==> r == Restored(None, None, None)
    ensures r.messages.Some? <==> StoredNonEmpty(storage, MessagesKey) && !RestoreThrows(storage, codec)
    ensures r.messages.Some? ==>
      NoAudio(r.messages.value) && r.messages.value == StripAudio(codec.parse(storage[MessagesKey]).value)
    ensures r.fromLanguage.Some? <==> StoredNonEmpty(storage, FromLanguageKey) && !RestoreThrows(storage, codec)
    ensures r.fromLanguage.Some? ==> r.fromLanguage.value == storage[FromLanguageKey]
    ensures r.toLanguage.Some? <==> StoredNonEmpty(storage, ToLanguageKey) && !RestoreThrows(storage, codec)
    ensures r.toLanguage.Some? ==> r.toLanguage.value == storage[ToLanguageKey]
  {
    var messages :=
      if StoredNonEmpty(storage, MessagesKey) then
        match codec.parse(storage[MessagesKey])
        case None => None
        case Some(parsed) => Some(Some(StripAudio(parsed)))
      else Some(None);
    match messages
    case None => Restored(None, None, None)
    case Some(loaded) =>
      StripAudioIdempotent(if loaded.Some? then codec.parse(storage[MessagesKey]).value else []);
      Restored(loaded,
               if StoredNonEmpty(storage, FromLanguageKey) then Some(storage[FromLanguageKey]) else None,
               if StoredNonEmpty(storage, ToLanguageKey) then Some(storage[ToLanguageKey]) else None)
  }

  /**
   * Round trip: saving the conversation and two non-empty languages, then
   * loading, gives back the same languages and the conversation without audio.
   */
  lemma SaveThenRestore(storage: map<string, string>, ms: seq<Message>, from: string, to: string,
                        codec: JsonCodec)
    requires FaithfulJson(codec)
    requires from != [] && to != []
    ensures
      var saved := SaveMessages(storage, ms, codec)[FromLanguageKey := from][ToLanguageKey := to];
      Restore(saved, codec) == Restored(Some(StripAudio(ms)), Some(from), Some(to))
  {
    var stripped := StripAudio(ms);
    StripAudioIdempotent(ms);
    assert codec.parse(codec.stringify(stripped)) == Some(stripped);
  }

  // ----------------------------------------------------------------- playback

  /** The `messages.find` predicate of `handlePlayAudio`. */
  predicate PlaybackMatch(m: Message, text: string) {
    (m.originalText == text && m.wasRecorded) || (m.translatedText == text && m.wasRecorded)
  }

  /** `messages.find(...)` as an index: the first recorded message showing `text`. */
  function FindPlayback(ms: seq<Message>, text: string): (r: Option<nat>)
    ensures r.Some? ==> r.value < |ms| && PlaybackMatch(ms[r.value], text)
    ensures r.Some? ==> forall j :: 0 <= j < r.value ==> !PlaybackMatch(ms[j], text)
    ensures r.None? ==> forall j :: 0 <= j < |ms| ==> !PlaybackMatch(ms[j], text)
  {
    if ms == [] then None
    else if PlaybackMatch(ms[0], text) then Some(0)
    else match FindPlayback(ms[1..], text)
      case None => None
      case Some(k) => Some(k + 1)
  }

  /** What `handlePlayAudio` asks of the browser's audio. */
  datatype AudioAction =
    | CancelSpeech
    | PlayRecording(blob: Blob, fallbackText: string, fallbackLang: string)  // TTS of the fallback if play() rejects
    | Speak(text: string, lang: string)

  /**
   * `handlePlayAudio(text, lang, isRecorded)`. Nothing without speech synthesis;
   * otherwise cancel first, then either replay the first matching message's
   * recording (when it has one and its original text is `text`) or speak `text`.
   */
  function PlayAudio(ms: seq<Message>, text: string, lang: string, isRecorded: bool,
                     synthesisAvailable: bool): (r: seq<AudioAction>)
    ensures !synthesisAvailable ==> r == []
    ensures synthesisAvailable ==> |r| == 2 && r[0] == CancelSpeech
    ensures synthesisAvailable ==> r[1].PlayRecording? || r[1] == Speak(text, lang)
    ensures synthesisAvailable && !isRecorded ==> r[1] == Speak(text, lang)
    ensures synthesisAvailable && r[1].PlayRecording? ==>
      && isRecorded && r[1].fallbackText == text && r[1].fallbackLang == lang
      && exists i :: 0 <= i < |ms| && ms[i].recordedAudio == Some(r[1].blob)
                     && ms[i].originalText == text && ms[i].wasRecorded
  {
    if !synthesisAvailable then []
    else
      var found := if isRecorded then FindPlayback(ms, text) else None;
      if found.Some? && ms[found.value].recordedAudio.Some? && ms[found.value].originalText == text then
        [CancelSpeech, PlayRecording(ms[found.value].recordedAudio.value, text, lang)]
      else
        [CancelSpeech, Speak(text, lang)]
  }

  /** The first matching message decides: its recording is replayed when it has one for `text`. */
  lemma {:induction false} FirstMatchWithRecordingPlays(ms: seq<Message>, text: string, lang: string, i: nat)
    requires i < |ms| && ms[i].wasRecorded && ms[i].originalText == text && ms[i].recordedAudio.Some?
    requires forall j :: 0 <= j < i ==> !PlaybackMatch(ms[j], text)
    ensures PlayAudio(ms, text, lang, true, true) ==
            [CancelSpeech, PlayRecording(ms[i].recordedAudio.value, text, lang)]
  {
    FirstMatchIndex(ms, text, i);
  }

  /**
   * A first match without a usable recording (no audio yet, or matched through its
   * translation) falls back to TTS, even if a later message has a recording of `text`.
   */
  lemma {:induction false} FirstMatchWithoutRecordingSpeaks(ms: seq<Message>, text: string, lang: string, i: nat)
    requires i < |ms| && PlaybackMatch(ms[i], text)
    requires ms[i].recordedAudio.None? || ms[i].originalText != text
    requires forall j :: 0 <= j < i ==> !PlaybackMatch(ms[j], text)
    ensures PlayAudio(ms, text, lang, true, true) == [CancelSpeech, Speak(text, lang)]
  {
    FirstMatchIndex(ms, text, i);
  }

  /** FindPlayback returns the first match. */
  lemma FirstMatchIndex(ms: seq<Message>, text: string, i: nat)
    requires i < |ms| && PlaybackMatch(ms[i], text)
    requires forall j :: 0 <= j < i ==> !PlaybackMatch(ms[j], text)
    ensures FindPlayback(ms, text) == Some(i)
  {
  }
}
