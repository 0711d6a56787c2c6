/**
 * Whole-page runs: sequences of events on a fresh page, checked only against
 * the contracts of the handlers they call.
 */
module Scenarios {

  import opened Wrappers
  import opened Conversation
  import opened Recognition
  import opened Home
  import TranslateRoute
  import JsText

  /** A storage codec for runs that never reload. */
  function NoReloadJson(): JsonCodec {
    JsonCodec(ms => "[]", s => None)
  }

  /** The texts of the result lists used below, one small fact at a time. */
  lemma InterimTes()
    ensures Pending([SpeechResult("tes", false)], 0) == [SpeechResult("tes", false)]
    ensures InterimText([SpeechResult("tes", false)]) == "tes"
    ensures FinalText([SpeechResult("tes", false)]) == []
    ensures JsText.Trim([]) == []
  {
    assert [SpeechResult("tes", false)][..0] == [];
  }

  lemma FinalTestSpace()
    ensures Pending([SpeechResult("tes", false), SpeechResult("test ", true)], 1) == [SpeechResult("test ", true)]
    ensures FinalText([SpeechResult("test ", true)]) == "test "
  {
    assert [SpeechResult("test ", true)][..0] == [];
  }

  lemma TrimTestSpace()
    ensures JsText.Trim("test ") == "test"
  {
    assert JsText.LeadingBlanks("test ") == 0;
    assert "test "[0..] == "test ";
    assert JsText.ContentEnd("test ") == 4;
  }

  lemma ReplyHola(req: Request, reply: FetchOutcome, ms: seq<Message>)
    requires req == Request("hola", "es-ES", "en-US", true, None)
    requires reply == Received(TranslateRoute.Translated("hello"))
    requires ms == ApplyReply([], req, reply, 5)
    ensures |ms| == 1 && ms[0].originalText == "hola" && ms[0].wasRecorded
  {
  }

  lemma HolaRecordingPlays(ms: seq<Message>, blob: Blob)
    requires |ms| == 1 && ms[0].originalText == "hola" && ms[0].wasRecorded
    ensures AttachAudio(ms, blob)[0].recordedAudio == Some(blob)
    ensures PlayAudio(AttachAudio(ms, blob), "hola", "es-ES", true, true)
         == [CancelSpeech, PlayRecording(blob, "hola", "es-ES")]
  {
    FirstMatchWithRecordingPlays(AttachAudio(ms, blob), "hola", "es-ES", 0);
  }

  /** Typing "Hello" from en-US to es-ES with reply "Hola" appends one right-hand message. */
  method TypedHelloIsAppended() returns (messages: seq<Message>)
    ensures |messages| == 1
    ensures messages[0].originalText == "Hello" && messages[0].translatedText == "Hola"
    ensures messages[0].originalLang == "en-US" && messages[0].translatedLang == "es-ES"
    ensures messages[0].speakerSide == Right && !messages[0].wasRecorded
  {
    var page := new HomePage(false, true, true, true, NoReloadJson(), map[]);
    var effects := page.GetTranslation("Hello", false);
    page.OnTranslationReply(effects[0].request, Received(TranslateRoute.Translated("Hola")), 1);
    messages := page.messages;
  }

  /** A listening en-US page after the interim result "tes". */
  method InterimTesShown() returns (page: HomePage)
    ensures fresh(page) && page.Valid()
    ensures !page.isBrave && page.isListening
    ensures page.fromLanguage == "en-US" && page.toLanguage == "es-ES"
    ensures page.interimTranscript == "tes"
  {
    page := new HomePage(false, true, true, true, NoReloadJson(), map[]);
    var started := page.HandleListen(true, true, false);
    var interimOnly := [SpeechResult("tes", false)];
    InterimTes();
    assert InterimText(Pending(interimOnly, 0)) == "tes";
    assert JsText.Trim(FinalText(Pending(interimOnly, 0))) == [];
    var none := page.OnResult(interimOnly, 0);
  }

  /**
   * While listening, an interim "tes" is shown; the final "test " then issues
   * exactly one recorded translation of "test" and clears the interim text.
   */
  method FinalTranscriptIsTranslatedOnce() returns (shownBefore: string, effects: seq<Effect>, interim: string)
    ensures shownBefore == "tes"
    ensures effects == [Fetch(Request("test", "en-US", "es-ES", true, None))]
    ensures interim == []
  {
    var page := InterimTesShown();
    shownBefore := page.interimTranscript;
    var withFinal := [SpeechResult("tes", false), SpeechResult("test ", true)];
    FinalTestSpace();
    TrimTestSpace();
    assert JsText.Trim(FinalText(Pending(withFinal, 1))) == "test";
    effects := page.OnResult(withFinal, 1);
    interim := page.interimTranscript;
  }

  /** A permission error stops listening, clears the interim text and schedules no restart. */
  method PermissionDeniedResets() returns (listening: bool, interim: string, effects: seq<Effect>)
    ensures !listening && interim == []
    ensures forall e :: e in effects ==> !e.ScheduleRestart?
  {
    var page := new HomePage(false, true, true, true, NoReloadJson(), map[]);
    var started := page.HandleListen(true, true, false);
    var none := page.OnResult([SpeechResult("hel", false)], 0);
    effects := page.OnError("not-allowed");
    listening, interim := page.isListening, page.interimTranscript;
  }

  /** Clearing while listening leaves no messages, no stored conversation and no listening. */
  method ClearWhileListening() returns (messages: seq<Message>, stored: bool, listening: bool, chunks: seq<Chunk>)
    ensures messages == [] && !stored && !listening && chunks == []
  {
    var page := new HomePage(false, true, true, true, NoReloadJson(),
                             map[MessagesKey := "[{}]", FromLanguageKey := "fr-FR"]);
    var started := page.HandleListen(true, true, false);
    page.OnDataAvailable(Chunk(0, 10));
    page.OnTranslationReply(Request("Hi", "en-US", "es-ES", true, None),
                            Received(TranslateRoute.Translated("Hola")), 1);
    var effects := page.ClearChat();
    messages, stored, listening, chunks :=
      page.messages, MessagesKey in page.storage, page.isListening, page.audioChunks;
  }

  /**
   * A page listening in es-ES (translating to en-US) whose recorder has
   * delivered an empty chunk, which is dropped, and a non-empty one.
   */
  method RecordingInSpanish() returns (page: HomePage)
    ensures fresh(page) && page.Valid()
    ensures page.isListening && page.recording && page.webmSupported && page.synthesisAvailable
    ensures !page.isBrave && page.fromLanguage == "es-ES" && page.toLanguage == "en-US"
    ensures page.messages == [] && page.audioChunks == [Chunk(7, 42)]
  {
    page := new HomePage(false, true, true, true, NoReloadJson(), map[]);
    page.SetFromLanguage("es-ES");
    page.SetToLanguage("en-US");
    var started := page.HandleListen(true, true, false);
    page.OnDataAvailable(Chunk(6, 0));
    page.OnDataAvailable(Chunk(7, 42));
  }

  /**
   * The same page after the recorded request that a final "hola" issues
   * has been answered with "hello".
   */
  method AfterSpokenHola() returns (page: HomePage)
    ensures fresh(page) && page.Valid()
    ensures page.isListening && page.recording && page.webmSupported && page.synthesisAvailable
    ensures page.audioChunks == [Chunk(7, 42)]
    ensures |page.messages| == 1 && page.messages[0].originalText == "hola" && page.messages[0].wasRecorded
  {
    page := RecordingInSpanish();
    var req := Request("hola", page.fromLanguage, page.toLanguage, true, None);
    var reply := Received(TranslateRoute.Translated("hello"));
    page.OnTranslationReply(req, reply, 5);
    ReplyHola(req, reply, page.messages);
  }

  /**
   * A spoken phrase: the recorder's chunks end up as the blob of the message
   * the phrase produced, and playing that message's original replays the blob.
   */
  method SpokenPhraseGetsItsRecording() returns (audio: Option<Blob>, playback: seq<AudioAction>)
    ensures audio == Some(Blob([Chunk(7, 42)], "audio/webm"))
    ensures playback == [CancelSpeech, PlayRecording(audio.value, "hola", "es-ES")]
  {
    var page := AfterSpokenHola();
    var ms := page.messages;
    var stopped := page.HandleListen(true, true, false);
    assert page.messages == ms && page.audioChunks == [Chunk(7, 42)];
    var released := page.OnRecorderStop();
    var blob := Blob([Chunk(7, 42)], "audio/webm");
    assert page.messages == AttachAudio(ms, blob);
    HolaRecordingPlays(ms, blob);
    audio := page.messages[0].recordedAudio;
    playback := PlayAudio(page.messages, "hola", "es-ES", true, page.synthesisAvailable);
  }
}
