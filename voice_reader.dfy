/**
  The streaming read-aloud engine `useVoiceReader` (src/preact/voiceread.ts:4-94).

  The four refs of the hook are the fields `reading`, `readingPos`, `streamComplete`
  and `readText`. The speech adapter is abstract: `Speak` records the text handed to
  `speak` and leaves the calling `readLoop` suspended in `pending`; `StopTTS` counts
  the calls to `stop`. `readLoop` is split at its one suspension point: `ReadLoop`
  runs a call up to `await speak(...)`, and `SpeakResolved` runs the rest of a
  suspended call once its promise resolves. The environment chooses which promise
  resolves; nothing ties a suspended call to the turn that made it, exactly as in the
  code, which has no turn-generation token.
*/
module VoiceReading {
  import opened Segmenter

  /** What a `readLoop` call still does after its `await speak(...)`. */
  datatype Continuation =
    | AfterSentence(end: nat)   // voiceread.ts:75-80: move the cursor, go on if still reading
    | AfterRemainder(end: nat)  // voiceread.ts:53-56: move the cursor, stop, report completion

  /** What one `readLoop` call does before its first await, decided from its snapshot. */
  datatype Iteration =
    | Complete                               // voiceread.ts:44-47: nothing left, report completion
    | Idle                                   // voiceread.ts:64-66: no finished sentence yet
    | Say(slice: string, resume: Continuation)

  /** The texts handed to `speak`, joined in call order. */
  function Concat(parts: seq<string>): string {
    if parts == [] then "" else Concat(parts[..|parts| - 1]) + parts[|parts| - 1]
  }

  /** voiceread.ts:40-70: the decision of one `readLoop` call with cursor `pos` over
      `text`. After the end of the stream the whole remainder is said at once;
      before it, everything up to the last finished sentence. */
  function Plan(streamComplete: bool, pos: nat, text: string): (d: Iteration)
    ensures d.Complete? <==> streamComplete && pos >= |text|
    ensures d.Idle? ==> !streamComplete
    ensures d.Say? ==>
              && pos < d.resume.end <= |text|
              && d.slice == text[pos..d.resume.end]
              && (d.resume.AfterRemainder? <==> streamComplete)
              && (streamComplete ==> d.resume.end == |text|)
  {
    if streamComplete then
      if pos >= |text| then Complete else Say(text[pos..], AfterRemainder(|text|))
    else
      var e := EndOfLastSentence(text, pos);
      if e <= pos then Idle else Say(text[pos..e], AfterSentence(e))
  }

  /** Whatever an iteration says continues the text exactly where the cursor stands
      and moves the cursor forward: the spoken slices never overlap and leave no gap. */
  lemma PlanCovers(streamComplete: bool, pos: nat, text: string)
    requires pos <= |text|
    ensures Plan(streamComplete, pos, text).Say? ==>
              var d := Plan(streamComplete, pos, text);
              && pos < d.resume.end <= |text|
              && text[..pos] + d.slice == text[..d.resume.end]
  {
    var d := Plan(streamComplete, pos, text);
    if d.Say? {
      assert text[..pos] + text[pos..d.resume.end] == text[..d.resume.end];
    }
  }

  /** Before the end of the stream an iteration stays idle exactly when no sentence has
      been finished past the cursor; otherwise it says up to the last finished one. */
  lemma PlanBeforeEndOfStream(pos: nat, text: string)
    ensures Plan(false, pos, text).Idle?
            <==> forall k :: pos <= k < |text| ==> !EndsSentence(text, k)
    ensures Plan(false, pos, text).Say? ==>
              var d := Plan(false, pos, text);
              && d.resume.AfterSentence?
              && d.resume.end == EndOfLastSentence(text, pos)
              && pos < d.resume.end <= |text|
              && d.slice == text[pos..d.resume.end]
              && EndsSentence(text, d.resume.end - 1)
              && forall k :: RunEnd(text, d.resume.end - 1) <= k < |text| ==> !EndsSentence(text, k)
  {
    EndOfLastSentenceSpec(text, pos);
  }

  class VoiceReader {
    var reading: bool
    var readingPos: nat
    var streamComplete: bool
    var readText: string
    /** The texts handed to `speak` since the turn began, in call order. */
    var spoken: seq<string>
    /** The `readLoop` calls suspended in `await speak(...)`. */
    var pending: seq<Continuation>
    /** How often `stop` was called on the speech adapter. */
    var stops: nat
    /** How often `onComplete` was called. */
    var completions: nat

    constructor ()
      ensures !reading && readingPos == 0 && !streamComplete && readText == ""
      ensures spoken == [] && pending == [] && stops == 0 && completions == 0
      ensures Covered()
    {
      reading, readingPos, streamComplete, readText := false, 0, false, "";
      spoken, pending, stops, completions := [], [], 0, 0;
    }

    /** The coverage law: with a single reading loop, what has been said is exactly the
        text up to the cursor, or up to the end of the slice being said. */
    ghost predicate Covered()
      reads this
      ensures Covered() ==> Concat(spoken) <= readText
    {
      && |pending| <= 1
      && (reading ==> |pending| == 1)
      && (pending == [] ==> readingPos <= |readText| && Concat(spoken) == readText[..readingPos])
      && (|pending| == 1 ==>
            && readingPos < pending[0].end <= |readText|
            && Concat(spoken) == readText[..pending[0].end])
    }

    /** The state after a `readLoop` call reached its await or returned, from the
        effects before it. */
    ghost predicate Began(plan: Iteration, spoken0: seq<string>, pending0: seq<Continuation>, completions0: nat)
      reads this
    {
      match plan
      case Complete => !reading && spoken == spoken0 && pending == pending0 && completions == completions0 + 1
      case Idle => !reading && spoken == spoken0 && pending == pending0 && completions == completions0
      case Say(x, c) => reading && spoken == spoken0 + [x] && pending == pending0 + [c] && completions == completions0
    }

    /** The adapter's `speak`: records the text; the caller stays suspended until the
        environment resolves its promise (it never rejects). */
    method Speak(slice: string, resume: Continuation)
      modifies this
      ensures spoken == old(spoken) + [slice] && pending == old(pending) + [resume]
      ensures reading == old(reading) && readingPos == old(readingPos)
      ensures streamComplete == old(streamComplete) && readText == old(readText)
      ensures stops == old(stops) && completions == old(completions)
    {
      spoken := spoken + [slice];
      pending := pending + [resume];
    }

    /** The adapter's `stop`. */
    method StopTTS()
      modifies this
      ensures stops == old(stops) + 1
      ensures reading == old(reading) && readingPos == old(readingPos)
      ensures streamComplete == old(streamComplete) && readText == old(readText)
      ensures spoken == old(spoken) && pending == old(pending) && completions == old(completions)
    {
      stops := stops + 1;
    }

    /** voiceread.ts:12-18: a new turn. A `speak` still pending is not withdrawn. */
    method Restart()
      modifies this
      ensures readingPos == 0 && !reading && !streamComplete && readText == ""
      ensures stops == old(stops) + 1 && spoken == []
      ensures pending == old(pending) && completions == old(completions)
      ensures old(pending) == [] ==> Covered()
    {
      readingPos := 0;
      reading := false;
      streamComplete := false;
      readText := "";
      spoken := [];
      StopTTS();
    }

    /** voiceread.ts:20-22: only the flag changes; nothing is said. */
    method EndOfStream()
      modifies this
      ensures streamComplete
      ensures reading == old(reading) && readingPos == old(readingPos) && readText == old(readText)
      ensures spoken == old(spoken) && pending == old(pending)
      ensures stops == old(stops) && completions == old(completions)
      ensures old(Covered()) ==> Covered()
    {
      streamComplete := true;
    }

    /** voiceread.ts:24-27: the pending `speak` still resolves, but its loop ends there. */
    method StopReading()
      modifies this
      ensures !reading && stops == old(stops) + 1
      ensures readingPos == old(readingPos) && streamComplete == old(streamComplete) && readText == old(readText)
      ensures spoken == old(spoken) && pending == old(pending) && completions == old(completions)
      ensures old(Covered()) ==> Covered()
    {
      reading := false;
      StopTTS();
    }

    /** voiceread.ts:29-35: always take the new snapshot; start a loop only when none runs. */
    method ReadStream(text: string)
      modifies this
      ensures readText == text && readingPos == old(readingPos)
      ensures streamComplete == old(streamComplete) && stops == old(stops)
      ensures old(reading) ==>
                reading && spoken == old(spoken) && pending == old(pending) && completions == old(completions)
      ensures !old(reading) ==>
                Began(Plan(old(streamComplete), old(readingPos), text), old(spoken), old(pending), old(completions))
      ensures old(Covered()) && old(readText) <= text && (old(reading) || old(pending) == []) ==> Covered()
    {
      readText := text;
      if !reading {
        ghost var before := old(readText);
        assert old(Covered()) && before <= text ==> readText[..readingPos] == before[..readingPos];
        ReadLoop();
      } else {
        assert old(Covered()) && old(readText) <= text && |pending| == 1 ==>
          readText[..pending[0].end] == old(readText)[..pending[0].end];
      }
    }

    /** voiceread.ts:37-70: one `readLoop` call up to its await (or its return). */
    method ReadLoop()
      modifies this
      ensures readingPos == old(readingPos) && readText == old(readText)
      ensures streamComplete == old(streamComplete) && stops == old(stops)
      ensures Began(Plan(old(streamComplete), old(readingPos), old(readText)), old(spoken), old(pending), old(completions))
      ensures (&& old(pending) == []
               && old(readingPos) <= |old(readText)|
               && Concat(old(spoken)) == old(readText)[..old(readingPos)]) ==> Covered()
    {
      reading := true;
      var pos := readingPos;
      var text := readText;
      if streamComplete {
        if pos >= |text| {
          reading := false;
          completions := completions + 1;
          return;
        }
        Speak(text[pos..], AfterRemainder(|text|));
        PlanCovers(true, pos, text);
        return;
      }
      var endOfSentence := FindEndOfLastSentence(text, pos);
      if endOfSentence <= pos {
        reading := false;
        return;
      }
      Speak(text[pos..endOfSentence], AfterSentence(endOfSentence));
      PlanCovers(false, pos, text);
    }

    /** voiceread.ts:52-57 and 74-80: the promise of the `k`-th suspended call resolves. */
    method SpeakResolved(k: nat)
      requires k < |pending|
      modifies this
      ensures readText == old(readText) && streamComplete == old(streamComplete) && stops == old(stops)
      ensures readingPos == old(pending[k]).end
      ensures var rest := old(pending[..k] + pending[k + 1..]);
              match old(pending[k])
              case AfterRemainder(_) =>
                !reading && spoken == old(spoken) && pending == rest && completions == old(completions) + 1
              case AfterSentence(e) =>
                if old(reading) then Began(Plan(old(streamComplete), e, old(readText)), old(spoken), rest, old(completions))
                else !reading && spoken == old(spoken) && pending == rest && completions == old(completions)
      ensures old(Covered()) ==> Covered()
    {
      var c := pending[k];
      pending := pending[..k] + pending[k + 1..];
      match c
      case AfterRemainder(end) =>
        readingPos := end;
        reading := false;
        completions := completions + 1;
      case AfterSentence(end) =>
        readingPos := end;
        if reading {
          ReadLoop();
        }
    }
  }
}
