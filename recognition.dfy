/**
 * The speech-recognition callbacks of the home page (src/app/page.tsx): how a
 * `result` event is split into final and interim text, and how each error code
 * is answered. The page state they act on lives in module Home.
 */
module Recognition {

  import opened Wrappers

  /** `event.results[i]`: its first alternative's transcript and whether it is final. */
  datatype SpeechResult = SpeechResult(transcript: string, isFinal: bool)

  /** The results the handler scans: from `event.resultIndex` to the end (none if past it). */
  function Pending(results: seq<SpeechResult>, resultIndex: nat): seq<SpeechResult> {
    if resultIndex <= |results| then results[resultIndex..] else []
  }

  /** The transcripts of the final results, concatenated in order. */
  function FinalText(rs: seq<SpeechResult>): string {
    if rs == [] then []
    else FinalText(rs[..|rs| - 1]) + (if rs[|rs| - 1].isFinal then rs[|rs| - 1].transcript else [])
  }

  /** The transcripts of the non-final results, concatenated in order. */
  function InterimText(rs: seq<SpeechResult>): string {
    if rs == [] then []
    else InterimText(rs[..|rs| - 1]) + (if rs[|rs| - 1].isFinal then [] else rs[|rs| - 1].transcript)
  }

  /** Both texts keep arrival order: the texts of a concatenation are the concatenated texts. */
  lemma {:induction false} TextsOfConcatenation(a: seq<SpeechResult>, b: seq<SpeechResult>)
    ensures FinalText(a + b) == FinalText(a) + FinalText(b)
    ensures InterimText(a + b) == InterimText(a) + InterimText(b)
  {
    if b == [] {
      assert a + b == a;
    } else {
      var c := b[..|b| - 1];
      assert (a + b)[..|a + b| - 1] == a + c;
      TextsOfConcatenation(a, c);
    }
  }

  /** A single result's transcript goes to the final text exactly when it is final, otherwise to the interim text. */
  lemma TextsOfOneResult(r: SpeechResult)
    ensures FinalText([r]) == (if r.isFinal then r.transcript else [])
    ensures InterimText([r]) == (if r.isFinal then [] else r.transcript)
  {
  }

  /** The texts of `before + [r] + after`: `r`'s transcript sits between the other two parts' texts. */
  lemma TextsAround(before: seq<SpeechResult>, r: SpeechResult, after: seq<SpeechResult>)
    ensures FinalText(before + [r] + after) ==
      FinalText(before) + (if r.isFinal then r.transcript else []) + FinalText(after)
    ensures InterimText(before + [r] + after) ==
      InterimText(before) + (if r.isFinal then [] else r.transcript) + InterimText(after)
  {
    TextsOfConcatenation(before + [r], after);
    TextsOfConcatenation(before, [r]);
    TextsOfOneResult(r);
  }

  /**
   * Result `i` contributes its transcript to exactly one text: to the final text
   * when it is final, to the interim text otherwise, in both cases between the
   * contributions of the results before and after it.
   */
  lemma ResultLandsInOneText(rs: seq<SpeechResult>, i: nat)
    requires i < |rs|
    ensures FinalText(rs) ==
      FinalText(rs[..i]) + (if rs[i].isFinal then rs[i].transcript else []) + FinalText(rs[i + 1..])
    ensures InterimText(rs) ==
      InterimText(rs[..i]) + (if rs[i].isFinal then [] else rs[i].transcript) + InterimText(rs[i + 1..])
  {
    SplitAt(rs, i);
    TextsAround(rs[..i], rs[i], rs[i + 1..]);
  }

  /** A list is the results before `i`, result `i`, and the results after it. */
  lemma SplitAt(rs: seq<SpeechResult>, i: nat)
    requires i < |rs|
    ensures rs == rs[..i] + [rs[i]] + rs[i + 1..]
  {
  }

  /** The two texts together are exactly as long as all transcripts together. */
  lemma {:induction false} TextsPartitionTranscripts(rs: seq<SpeechResult>)
    ensures |FinalText(rs)| + |InterimText(rs)| == TotalLength(rs)
  {
    if rs != [] {
      TextsPartitionTranscripts(rs[..|rs| - 1]);
    }
  }

  /** Total length of all transcripts. */
  function TotalLength(rs: seq<SpeechResult>): nat {
    if rs == [] then 0 else TotalLength(rs[..|rs| - 1]) + |rs[|rs| - 1].transcript|
  }

  /** When every result is final there is no interim text, and vice versa. */
  lemma {:induction false} AllFinalMeansNoInterim(rs: seq<SpeechResult>)
    ensures (forall i :: 0 <= i < |rs| ==> rs[i].isFinal) ==> InterimText(rs) == []
    ensures (forall i :: 0 <= i < |rs| ==> !rs[i].isFinal) ==> FinalText(rs) == []
  {
    if rs != [] {
      AllFinalMeansNoInterim(rs[..|rs| - 1]);
    }
  }

  /**
   * The `for` loop of `onresult`: final transcripts and, when interim results are
   * used (not under the Brave profile), interim transcripts, each concatenated in order.
   */
  method ScanResults(results: seq<SpeechResult>, resultIndex: nat, interimEnabled: bool)
    returns (finalTranscript: string, interim: string)
    ensures finalTranscript == FinalText(Pending(results, resultIndex))
    ensures interim == if interimEnabled then InterimText(Pending(results, resultIndex)) else []
  {
    finalTranscript, interim := "", "";
    var i := resultIndex;
    while i < |results|
      invariant resultIndex <= i
      invariant resultIndex <= |results| ==> i <= |results|
      invariant resultIndex > |results| ==> finalTranscript == [] && interim == []
      invariant resultIndex <= |results| ==> finalTranscript == FinalText(results[resultIndex..i])
      invariant resultIndex <= |results| ==>
        interim == if interimEnabled then InterimText(results[resultIndex..i]) else []
    {
      var transcript := results[i].transcript;
      if results[i].isFinal {
        finalTranscript := finalTranscript + transcript;
      } else if interimEnabled {
        interim := interim + transcript;
      }
      ghost var seen := results[resultIndex..i + 1];
      assert seen[..|seen| - 1] == results[resultIndex..i] && seen[|seen| - 1] == results[i];
      assert FinalText(seen) == FinalText(results[resultIndex..i]) + (if results[i].isFinal then transcript else []);
      assert InterimText(seen) == InterimText(results[resultIndex..i]) + (if results[i].isFinal then [] else transcript);
      i := i + 1;
    }
    if resultIndex <= |results| {
      assert results[resultIndex..i] == Pending(results, resultIndex);
    }
  }

  // ------------------------------------------------------------------- errors

  /** Delay before the restart that `onend` schedules while listening. */
  const EndRestartMs := 100
  const BraveEndRestartMs := 500
  /** Delay before the restart that a "no-speech" error schedules under the Brave profile. */
  const NoSpeechRestartMs := 200

  /** The user-facing notices of `onerror`; their wording is not modelled. */
  datatype Alert =
    | ServiceUnavailable(brave: bool)  // "network"
    | MicrophoneDenied(brave: bool)    // "not-allowed"
    | RecognitionBlocked               // "service-not-allowed"

  /** What `onerror` does: reset listening and interim text, show a notice, schedule a restart. */
  datatype ErrorReaction = ErrorReaction(stopListening: bool, alert: Option<Alert>, restartAfterMs: Option<nat>)

  /**
   * The `switch (event.error)` of `onerror`. Every code but "no-speech" stops
   * listening; "network", "not-allowed" and "service-not-allowed" also show a
   * notice; "no-speech" schedules a restart only under the Brave profile and
   * only while listening.
   */
  function ReactToError(code: string, isBrave: bool, isListening: bool): (r: ErrorReaction)
    ensures r.stopListening <==> code != "no-speech"
    ensures r.alert.Some? <==> code == "network" || code == "not-allowed" || code == "service-not-allowed"
    ensures code == "network" ==> r.alert == Some(ServiceUnavailable(isBrave))
    ensures code == "not-allowed" ==> r.alert == Some(MicrophoneDenied(isBrave))
    ensures code == "service-not-allowed" ==> r.alert == Some(RecognitionBlocked)
    ensures r.restartAfterMs.Some? <==> code == "no-speech" && isBrave && isListening
    ensures r.restartAfterMs.Some? ==> r.restartAfterMs.value == NoSpeechRestartMs
  {
    if code == "network" then ErrorReaction(true, Some(ServiceUnavailable(isBrave)), None)
    else if code == "not-allowed" then ErrorReaction(true, Some(MicrophoneDenied(isBrave)), None)
    else if code == "no-speech" then
      ErrorReaction(false, None, if isBrave && isListening then Some(NoSpeechRestartMs) else None)
    else if code == "aborted" then ErrorReaction(true, None, None)
    else if code == "service-not-allowed" then ErrorReaction(true, Some(RecognitionBlocked), None)
    else ErrorReaction(true, None, None)
  }
}
