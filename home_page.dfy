/**
 * The home page component (src/app/page.tsx) as an object: its React state
 * and refs are fields, each event handler is a method, and every browser or
 * network effect a handler causes is returned as an `Effect` for the
 * environment to carry out. Oracle answers (a user's confirmation, a
 * microphone grant, a `start()` that throws) are parameters.
 */
module Home {

  import opened Wrappers
  import opened JsText
  import opened Conversation
  import opened Recognition

  /** Notices the page shows with `alert`; their wording is not modelled. */
  datatype Notice =
    | RecognitionError(alert: Alert)  // from `onerror`
    | RecognitionUnsupported          // no SpeechRecognition constructor
    | MicrophoneUnavailable           // `getUserMedia` failed
    | StartFailed(brave: bool)        // `recognition.start()` threw

  /** What a handler asks of the browser or the network. */
  datatype Effect =
    | StartRecognition(lang: string)
    | StopRecognition
    | StartRecorder(timesliceMs: nat)
    | StopRecorder
    | ReleaseMicrophone
    | ScheduleRestart(delayMs: nat)   // a `setTimeout` whose callback is OnRestartTimer
    | Fetch(request: Request)         // its reply arrives through OnTranslationReply
    | Notify(notice: Notice)
    | CancelSynthesis  // `speechSynthesis.cancel()`

  /** `mediaRecorder.start(1000)`: a chunk every second. */
  const RecorderTimesliceMs := 1000

  const DefaultFromLanguage := "en-US"
  const DefaultToLanguage := "es-ES"

  class HomePage {
    // the host environment, fixed for the page's lifetime
    const isBrave: bool
    const recognitionSupported: bool
    const synthesisAvailable: bool
    const webmSupported: bool
    const json: JsonCodec

    // React state
    var messages: seq<Message>
    var fromLanguage: string
    var toLanguage: string
    var isListening: bool
    var interimTranscript: string
    var isMounted: bool

    // refs
    var audioChunks: seq<Chunk>
    var recording: bool   // `mediaRecorderRef.current?.state === "recording"`

    /** `sessionStorage`. */
    var storage: map<string, string>

    /** Listening is only ever switched on where speech recognition exists. */
    ghost predicate Valid()
      reads this
    {
      isListening ==> recognitionSupported
    }

    /** The MIME type the recorder was created with. */
    function RecorderMimeType(): string
      reads this
    {
      if webmSupported then "audio/webm" else "audio/ogg"
    }

    constructor (isBrave: bool, recognitionSupported: bool, synthesisAvailable: bool,
                 webmSupported: bool, json: JsonCodec, storage: map<string, string>)
      ensures Valid()
      ensures this.isBrave == isBrave && this.recognitionSupported == recognitionSupported
      ensures this.synthesisAvailable == synthesisAvailable && this.webmSupported == webmSupported
      ensures this.json == json && this.storage == storage
      ensures messages == [] && fromLanguage == DefaultFromLanguage && toLanguage == DefaultToLanguage
      ensures !isListening && interimTranscript == [] && !isMounted
      ensures audioChunks == [] && !recording
    {
      this.isBrave, this.recognitionSupported := isBrave, recognitionSupported;
      this.synthesisAvailable, this.webmSupported := synthesisAvailable, webmSupported;
      this.json, this.storage := json, storage;
      messages, fromLanguage, toLanguage := [], DefaultFromLanguage, DefaultToLanguage;
      isListening, interimTranscript, isMounted := false, [], false;
      audioChunks, recording := [], false;
    }

    // -------------------------------------------------------------- storage

    /** The mount effect: apply what Restore finds in storage, then mark the page mounted. */
    method Mount()
      requires Valid()
      modifies this`messages, this`fromLanguage, this`toLanguage, this`isMounted
      ensures Valid() && isMounted
      ensures var r := Restore(old(storage), json);
        && messages == (if r.messages.Some? then r.messages.value else old(messages))
        && fromLanguage == (if r.fromLanguage.Some? then r.fromLanguage.value else old(fromLanguage))
        && toLanguage == (if r.toLanguage.Some? then r.toLanguage.value else old(toLanguage))
    {
      var r := Restore(storage, json);
      if r.messages.Some? { messages := r.messages.value; }
      if r.fromLanguage.Some? { fromLanguage := r.fromLanguage.value; }
      if r.toLanguage.Some? { toLanguage := r.toLanguage.value; }
      isMounted := true;
    }

    /** The effect that runs after every change of `messages`: save them without audio. */
    method PersistMessages()
      requires Valid()
      modifies this`storage
      ensures Valid()
      ensures storage == if isMounted then SaveMessages(old(storage), messages, json) else old(storage)
    {
      if isMounted {
        storage := SaveMessages(storage, messages, json);
      }
    }

    /** The effects that run after a language changes: save both tags. */
    method PersistLanguages()
      requires Valid()
      modifies this`storage
      ensures Valid()
      ensures storage == if isMounted
        then old(storage)[FromLanguageKey := fromLanguage][ToLanguageKey := toLanguage]
        else old(storage)
    {
      if isMounted {
        storage := storage[FromLanguageKey := fromLanguage];
        storage := storage[ToLanguageKey := toLanguage];
      }
    }

    /** The `setFromLanguage` passed to the controls. */
    method SetFromLanguage(lang: string)
      requires Valid()
      modifies this`fromLanguage
      ensures Valid() && fromLanguage == lang
    {
      fromLanguage := lang;
    }

    /** The `setToLanguage` passed to the controls. */
    method SetToLanguage(lang: string)
      requires Valid()
      modifies this`toLanguage
      ensures Valid() && toLanguage == lang
    {
      toLanguage := lang;
    }

    // ---------------------------------------------------------- translation

    /**
     * `getTranslation(text, wasRecorded)` up to its `await`: empty text sends
     * nothing; otherwise one request with the current languages.
     */
    method GetTranslation(text: string, wasRecorded: bool) returns (effects: seq<Effect>)
      ensures text == [] <==> effects == []
      ensures text != [] ==> effects == [Fetch(Request(text, fromLanguage, toLanguage, wasRecorded, None))]
    {
      if text == [] {
        return [];
      }
      effects := [Fetch(Request(text, fromLanguage, toLanguage, wasRecorded, None))];
    }

    /** The rest of `getTranslation`: the reply of one request arrives. */
    method OnTranslationReply(req: Request, outcome: FetchOutcome, id: int)
      requires Valid()
      modifies this`messages
      ensures Valid()
      ensures messages == ApplyReply(old(messages), req, outcome, id)
    {
      if Accepted(outcome) {
        var m := Message(id, req.text, outcome.body.translatedText, req.fromLanguage,
                         req.toLanguage, SideFor(req.fromLanguage), req.wasRecorded, req.audio);
        messages := messages + [m];
      }
    }

    // ---------------------------------------------------------- recognition

    /**
     * `recognition.onresult`. Interim text replaces the previous value (not
     * under the Brave profile); a final text that is not blank is translated,
     * trimmed and marked recorded, and then the interim text is cleared.
     */
    method OnResult(results: seq<SpeechResult>, resultIndex: nat) returns (effects: seq<Effect>)
      requires Valid()
      modifies this`interimTranscript
      ensures Valid()
      ensures var spoken := Trim(FinalText(Pending(results, resultIndex)));
        && effects == (if spoken != [] then [Fetch(Request(spoken, fromLanguage, toLanguage, true, None))] else [])
        && interimTranscript ==
             if spoken != [] then []
             else if isBrave then old(interimTranscript)
             else InterimText(Pending(results, resultIndex))
    {
      var finalTranscript, interim := ScanResults(results, resultIndex, !isBrave);
      if !isBrave {
        interimTranscript := interim;
      }
      effects := [];
      var spoken := Trim(finalTranscript);
      if spoken != [] {
        effects := GetTranslation(spoken, true);
        interimTranscript := [];
      }
    }

    /** `recognition.onend`: while listening, schedule a restart and keep the interim text; otherwise clear it. */
    method OnEnd() returns (effects: seq<Effect>)
      requires Valid()
      modifies this`interimTranscript
      ensures Valid()
      ensures isListening ==>
        && effects == [ScheduleRestart(if isBrave then BraveEndRestartMs else EndRestartMs)]
        && interimTranscript == old(interimTranscript)
      ensures !isListening ==> effects == [] && interimTranscript == []
    {
      effects := [];
      if isListening {
        effects := [ScheduleRestart(if isBrave then BraveEndRestartMs else EndRestartMs)];
      } else {
        interimTranscript := [];
      }
    }

    /** A scheduled restart fires: start again if still listening; a `start()` that throws stops listening. */
    method OnRestartTimer(startThrows: bool) returns (effects: seq<Effect>)
      requires Valid()
      modifies this`isListening
      ensures Valid()
      ensures effects == if old(isListening) then [StartRecognition(fromLanguage)] else []
      ensures isListening == (old(isListening) && !startThrows)
    {
      effects := [];
      if isListening && recognitionSupported {
        effects := [StartRecognition(fromLanguage)];
        if startThrows {
          isListening := false;
        }
      }
    }

    /** `recognition.onerror`, applying ReactToError to the current state. */
    method OnError(code: string) returns (effects: seq<Effect>)
      requires Valid()
      modifies this`isListening, this`interimTranscript
      ensures Valid()
      ensures var r := ReactToError(code, isBrave, old(isListening));
        && isListening == (old(isListening) && !r.stopListening)
        && interimTranscript == (if r.stopListening then [] else old(interimTranscript))
        && effects == (if r.alert.Some? then [Notify(RecognitionError(r.alert.value))] else [])
                    + (if r.restartAfterMs.Some? then [ScheduleRestart(r.restartAfterMs.value)] else [])
    {
      var r := ReactToError(code, isBrave, isListening);
      if r.stopListening {
        isListening := false;
        interimTranscript := [];
      }
      effects := [];
      if r.alert.Some? {
        effects := effects + [Notify(RecognitionError(r.alert.value))];
      }
      if r.restartAfterMs.Some? {
        effects := effects + [ScheduleRestart(r.restartAfterMs.value)];
      }
    }

    // ------------------------------------------------------------- recorder

    /** `mediaRecorder.ondataavailable`: buffer non-empty chunks in arrival order. */
    method OnDataAvailable(chunk: Chunk)
      requires Valid()
      modifies this`audioChunks
      ensures Valid()
      ensures audioChunks == if chunk.size > 0 then old(audioChunks) + [chunk] else old(audioChunks)
    {
      if chunk.size > 0 {
        audioChunks := audioChunks + [chunk];
      }
    }

    /**
     * `mediaRecorder.onstop`: build one blob from the buffer, empty the buffer,
     * give the blob to the last message if it was recorded, release the microphone.
     */
    method OnRecorderStop() returns (effects: seq<Effect>)
      requires Valid()
      modifies this`audioChunks, this`messages
      ensures Valid()
      ensures audioChunks == []
      ensures messages == AttachAudio(old(messages), Blob(old(audioChunks), RecorderMimeType()))
      ensures effects == [ReleaseMicrophone]
    {
      var blob := Blob(audioChunks, RecorderMimeType());
      audioChunks := [];
      if |messages| > 0 {
        var last := messages[|messages| - 1];
        if last.wasRecorded {
          messages := messages[|messages| - 1 := last.(recordedAudio := Some(blob))];
        }
      }
      effects := [ReleaseMicrophone];
    }

    // ----------------------------------------------------------- user input

    /**
     * `handleListen`, the microphone button. Stopping stops recognition and the
     * recorder and clears listening state; starting checks support (and a Brave
     * user's confirmation), starts the recorder when the microphone is granted
     * (not under the Brave profile) and then recognition, which may throw.
     */
    method HandleListen(userConfirms: bool, microphoneGranted: bool, startThrows: bool)
      returns (effects: seq<Effect>)
      requires Valid()
      modifies this`isListening, this`interimTranscript, this`recording
      ensures Valid()
      ensures old(isListening) ==>
        && !isListening && interimTranscript == [] && !recording
        && effects == [StopRecognition] + (if old(recording) then [StopRecorder] else [])
      ensures !old(isListening) && !recognitionSupported ==>
        && effects == [Notify(RecognitionUnsupported)]
        && !isListening && interimTranscript == old(interimTranscript) && recording == old(recording)
      ensures !old(isListening) && recognitionSupported && isBrave && !userConfirms ==>
        && effects == []
        && !isListening && interimTranscript == old(interimTranscript) && recording == old(recording)
      ensures !old(isListening) && recognitionSupported && (!isBrave || userConfirms) ==>
        && interimTranscript == []
        && isListening == !startThrows
        && recording == (old(recording) || (!isBrave && microphoneGranted))
        && effects ==
             (if isBrave then []
              else if microphoneGranted then [StartRecorder(RecorderTimesliceMs)]
              else [Notify(MicrophoneUnavailable)])
             + [StartRecognition(fromLanguage)]
             + (if startThrows then [Notify(StartFailed(isBrave))] else [])
    {
      if isListening {
        effects := [];
        if recognitionSupported {
          effects := effects + [StopRecognition];
        }
        if recording {
          effects := effects + [StopRecorder];
          recording := false;
        }
        isListening := false;
        interimTranscript := [];
        return;
      }
      if !recognitionSupported {
        return [Notify(RecognitionUnsupported)];
      }
      if isBrave && !userConfirms {
        return [];
      }
      interimTranscript := [];
      isListening := true;
      effects := [];
      if !isBrave {
        if microphoneGranted {
          effects := effects + [StartRecorder(RecorderTimesliceMs)];
          recording := true;
        } else {
          effects := effects + [Notify(MicrophoneUnavailable)];
        }
      }
      effects := effects + [StartRecognition(fromLanguage)];
      if startThrows {
        isListening := false;
        effects := effects + [Notify(StartFailed(isBrave))];
      }
    }

    /**
     * `clearChat`: empty the conversation and remove it from storage at once,
     * cancel speech, stop listening and recording if listening, drop the buffer.
     */
    method ClearChat() returns (effects: seq<Effect>)
      requires Valid()
      modifies this`messages, this`storage, this`isListening, this`interimTranscript,
               this`recording, this`audioChunks
      ensures Valid()
      ensures messages == [] && audioChunks == [] && !isListening
      ensures storage == old(storage) - {MessagesKey}
      ensures old(isListening) ==> interimTranscript == [] && !recording
      ensures !old(isListening) ==> interimTranscript == old(interimTranscript) && recording == old(recording)
      ensures effects == (if synthesisAvailable then [CancelSynthesis] else [])
                       + (if old(isListening) then [StopRecognition] + (if old(recording) then [StopRecorder] else [])
                          else [])
    {
      messages := [];
      storage := storage - {MessagesKey};
      effects := [];
      if synthesisAvailable {
        effects := effects + [CancelSynthesis];
      }
      if isListening {
        if recognitionSupported {
          effects := effects + [StopRecognition];
        }
        if recording {
          effects := effects + [StopRecorder];
          recording := false;
        }
        isListening := false;
        interimTranscript := [];
      }
      audioChunks := [];
    }
  }
}
