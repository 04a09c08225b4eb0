/**
  Runs of the read-aloud engine on concrete answers, checked against the contracts of
  `VoiceReader` alone.
*/
module VoiceScenarios {
  import opened Segmenter
  import opened VoiceReading

  /** The cuts in the two snapshots of `StreamedAnswer`: after the first sentence, then
      after the second; after the end of the stream nothing is left. */
  lemma StreamedCuts(t1: string, t2: string)
    requires t1 == "Hello world." && t2 == "Hello world. How are you?"
    ensures Plan(false, 0, t1) == Say(t1, AfterSentence(12))
    ensures Plan(false, 12, t2) == Say(t2[12..], AfterSentence(25))
    ensures Plan(true, 25, t2) == Complete
    ensures t2[..12] == t1 && t1 + t2[12..] == t2
  {
    assert RunEnd(t1, 12) == 12 && RunEnd(t1, 11) == 12 && EndsSentence(t1, 11);
    LastMatchIsCut(t1, 0, 11);
    assert t1[0..12] == t1;
    assert RunEnd(t2, 25) == 25 && RunEnd(t2, 24) == 25 && EndsSentence(t2, 24);
    LastMatchIsCut(t2, 12, 24);
    assert t2[..12] + t2[12..] == t2;
  }

  /** The first two calls of `StreamedAnswer`: the first snapshot starts a loop, which
      says the first sentence; the second snapshot, while that is being said, is only
      stored. */
  method StreamedOpening(t1: string, t2: string) returns (r: VoiceReader)
    requires t1 == "Hello world." && t2 == "Hello world. How are you?"
    ensures fresh(r)
    ensures r.reading && r.readingPos == 0 && !r.streamComplete && r.readText == t2
    ensures r.spoken == [t1] && r.pending == [AfterSentence(12)] && r.completions == 0
  {
    StreamedCuts(t1, t2);
    r := new VoiceReader();
    r.ReadStream(t1);
    r.ReadStream(t2);
  }

  /** An answer streamed in two snapshots, then closed: the second sentence, which
      arrives while the first is being said, waits for that `speak` to resolve; the two
      sentences are said in order, and completion is reported once the cursor reaches
      the end. */
  method StreamedAnswer(t1: string, t2: string)
    requires t1 == "Hello world." && t2 == "Hello world. How are you?"
  {
    var r := StreamedOpening(t1, t2);
    StreamedCuts(t1, t2);
    r.SpeakResolved(0);
    assert r.readingPos == 12 && r.spoken == [t1, t2[12..]];
    r.EndOfStream();
    r.SpeakResolved(0);
    assert r.readingPos == 25 && r.pending == [] && !r.reading && r.completions == 1;
    assert Concat(r.spoken) == t2 by {
      assert Concat([t1]) == t1;
    }
  }

  /** An answer without any terminator: closing the stream alone says nothing, because
      `endOfStream` only sets the flag; the remainder is said as one piece by the next
      `readStream` call, and its resolution reports completion. */
  method UnpunctuatedAnswer() {
    var t := "no punctuation";
    assert forall k | 0 <= k < |t| :: !IsTerminator(t[k]);
    PlanBeforeEndOfStream(0, t);
    var r := new VoiceReader();
    r.ReadStream(t);
    r.EndOfStream();
    assert r.spoken == [] && !r.reading && r.completions == 0;

    r.ReadStream(t);
    assert r.spoken == [t] && r.pending == [AfterRemainder(|t|)];
    r.SpeakResolved(0);
    assert r.readingPos == |t| && !r.reading && r.completions == 1;
  }

  /** The cuts in the two turns of `RestartWhileSpeaking`. */
  lemma RestartCuts(old1: string, new1: string)
    requires old1 == "Hello. X" && new1 == "Yo. Z"
    ensures Plan(false, 0, old1) == Say("Hello.", AfterSentence(6))
    ensures Plan(false, 0, new1) == Say("Yo.", AfterSentence(3))
    ensures Plan(false, 6, new1) == Idle
  {
    assert RunEnd(old1, 6) == 6 && RunEnd(old1, 5) == 6 && EndsSentence(old1, 5);
    assert !EndsSentence(old1, 6) && !EndsSentence(old1, 7);
    LastMatchIsCut(old1, 0, 5);
    assert old1[0..6] == "Hello.";
    assert RunEnd(new1, 3) == 3 && RunEnd(new1, 2) == 3 && EndsSentence(new1, 2);
    assert !EndsSentence(new1, 3) && !EndsSentence(new1, 4);
    LastMatchIsCut(new1, 0, 2);
    assert new1[0..3] == "Yo.";
  }

  /** A restart while a `speak` of the previous turn is pending: when that promise
      resolves it writes the previous turn's offset into the cursor of the new turn and,
      finding `reading` set by the new turn's loop, runs another iteration, which stops
      the new turn's loop. */
  method RestartWhileSpeaking(old1: string, new1: string)
    requires old1 == "Hello. X" && new1 == "Yo. Z"
  {
    RestartCuts(old1, new1);
    var r := new VoiceReader();
    r.ReadStream(old1);
    assert r.pending == [AfterSentence(6)];
    r.Restart();
    r.ReadStream(new1);
    assert r.spoken == ["Yo."] && r.pending == [AfterSentence(6), AfterSentence(3)] && r.reading;
    r.SpeakResolved(0);
    assert r.readingPos == 6 && r.readText == new1 && !r.reading;
    assert r.pending == [AfterSentence(3)] && r.spoken == ["Yo."];
  }

  /** The first cut of "Wait... " falls one past the first dot of the run. */
  lemma EllipsisFirstCut(t: string)
    requires t == "Wait... "
    ensures Plan(false, 0, t) == Say("Wait.", AfterSentence(5))
  {
    assert RunEnd(t, 7) == 7 && RunEnd(t, 4) == 7;
    assert EndsSentence(t, 4) && !EndsSentence(t, 7);
    LastMatchIsCut(t, 0, 4);
    assert t[0..5] == "Wait.";
  }

  /** Each later cut of "Wait... " takes one more dot, since every dot left starts a
      run that still ends the sentence; after the last dot nothing ends a sentence. */
  lemma EllipsisLaterCuts(t: string)
    requires t == "Wait... "
    ensures Plan(false, 5, t) == Say(".", AfterSentence(6))
    ensures Plan(false, 6, t) == Say(".", AfterSentence(7))
    ensures Plan(false, 7, t) == Idle
  {
    assert RunEnd(t, 7) == 7 && RunEnd(t, 6) == 7 && RunEnd(t, 5) == 7;
    assert EndsSentence(t, 5) && EndsSentence(t, 6) && !EndsSentence(t, 7);
    LastMatchIsCut(t, 5, 5);
    LastMatchIsCut(t, 6, 6);
    PlanBeforeEndOfStream(7, t);
    assert t[5..6] == "." && t[6..7] == ".";
  }

  /** The `speak` of a running loop resolves and the next iteration says `x`. */
  method SayNext(r: VoiceReader, x: string, e: nat, e': nat)
    requires r.reading && !r.streamComplete && r.pending == [AfterSentence(e)]
    requires Plan(false, e, r.readText) == Say(x, AfterSentence(e'))
    modifies r
    ensures r.reading && !r.streamComplete && r.readText == old(r.readText)
    ensures r.spoken == old(r.spoken) + [x] && r.pending == [AfterSentence(e')]
  {
    r.SpeakResolved(0);
  }

  /** A snapshot whose first three iterations each say one slice, the loop then idle. */
  method ReadThree(t: string, a: string, b: string, c: string, e1: nat, e2: nat, e3: nat)
    returns (r: VoiceReader)
    requires Plan(false, 0, t) == Say(a, AfterSentence(e1))
    requires Plan(false, e1, t) == Say(b, AfterSentence(e2))
    requires Plan(false, e2, t) == Say(c, AfterSentence(e3))
    requires Plan(false, e3, t) == Idle
    ensures fresh(r)
    ensures r.spoken == [a, b, c] && r.pending == [] && !r.reading && r.readingPos == e3
  {
    r := new VoiceReader();
    r.ReadStream(t);
    SayNext(r, b, e1, e2);
    SayNext(r, c, e2, e3);
    r.SpeakResolved(0);
  }

  /** An ellipsis is said one dot at a time: "Wait... " is handed to `speak` as
      "Wait.", then ".", then ".", and the loop then waits for more text. */
  method EllipsisSaidDotByDot(t: string)
    requires t == "Wait... "
  {
    EllipsisFirstCut(t);
    EllipsisLaterCuts(t);
    var r := ReadThree(t, "Wait.", ".", ".", 5, 6, 7);
    assert r.spoken == ["Wait.", ".", "."] && r.readingPos == 7 && !r.reading;
  }

  /** After the end of the stream every `readLoop` call that finds nothing left reports
      completion: a `readStream` after the remainder was said reports it once more. */
  method CompletionReportedAgain(t: string)
    requires t == "Hi."
  {
    var r := new VoiceReader();
    r.EndOfStream();
    r.ReadStream(t);
    assert t[0..] == t;
    assert r.spoken == [t] && r.pending == [AfterRemainder(3)];
    r.SpeakResolved(0);
    assert r.completions == 1 && !r.reading && r.readingPos == 3;
    r.ReadStream(t);
    assert r.completions == 2 && r.spoken == [t] && r.pending == [];
  }

  /** `stopReading` while the remainder is being said does not withhold completion:
      when that `speak` resolves, the `finally` block still reports it. */
  method StopDuringRemainder(t: string)
    requires t == "Hi."
  {
    var r := new VoiceReader();
    r.EndOfStream();
    r.ReadStream(t);
    r.StopReading();
    assert !r.reading && r.pending == [AfterRemainder(3)] && r.completions == 0;
    r.SpeakResolved(0);
    assert r.completions == 1 && r.readingPos == 3 && !r.reading;
  }
}
