/**
  Runs of the sentence-queue reader, checked against the contracts of `SentenceReader`
  alone. The snapshots are described by what they publish.
*/
module ReaderScenarios {
  import opened Wrappers
  import opened Sentences
  import opened SentenceReading

  /** Both sentences are published before the first one has been said, and the stream
      is closed: the loop says them in order and then stops. */
  method BothInTime(t: string, a: string, b: string)
    requires Published(t) == [a, b]
  {
    var r := StartTwo(t, a, b);
    r.EndOfStream();
    r.SpeechEnded();
    assert r.uttered == [Some(a), Some(b)] && r.pending == 1;
    r.SpeechEnded();
    assert r.index == 2 && r.pending == 0;
    SaidBoth(a, b);
    assert Said(r.uttered) == [a, b];
  }

  /** A scenario helper: the first snapshot publishes two sentences and the loop says
      the first. */
  method StartTwo(t: string, a: string, b: string) returns (r: SentenceReader)
    requires Published(t) == [a, b]
    ensures fresh(r)
    ensures r.sentences == [a, b] && r.index == 0 && r.reading && !r.streamComplete
    ensures r.uttered == [Some(a)] && r.pending == 1 && r.cancels == 0
  {
    r := new SentenceReader();
    r.ReadStream(t);
  }

  /** The loop outruns the stream: once the only published sentence has been said, it
      reads past the end of the list and hands `undefined` to `speakText`; the sentence
      published at that position afterwards is never said, and once the stream is
      closed the loop stops. */
  method OverrunSkipsSentence(t1: string, t2: string, a: string, b: string)
    requires Published(t1) == [a] && Published(t2) == [a, b]
  {
    var r := new SentenceReader();
    r.ReadStream(t1);
    r.SpeechEnded();
    assert r.uttered == [Some(a), None];
    r.ReadStream(t2);
    assert r.sentences == [a, b] && r.uttered == [Some(a), None];
    r.EndOfStream();
    r.SpeechEnded();
    assert r.uttered == [Some(a), None] && r.pending == 0 && r.index == 2;
    SaidThenNothing(a);
    assert Said(r.uttered) == [a];
  }

  /** A scenario helper for `BothInTime`: `Said` of two utterances that both held a
      sentence, computed step by step. */
  lemma SaidBoth(a: string, b: string)
    ensures Said([Some(a), Some(b)]) == [a, b]
  {
    var u := [Some(a), Some(b)];
    assert u[..1] == [Some(a)] && u[..1][..0] == [];
    assert Said(u[..1]) == Said([]) + [a];
  }

  /** A scenario helper for `OverrunSkipsSentence`: `Said` of a sentence followed by an
      utterance without one, computed step by step. */
  lemma SaidThenNothing(a: string)
    ensures Said([Some(a), None]) == [a]
  {
    var u := [Some(a), None];
    assert u[..1] == [Some(a)] && u[..1][..0] == [];
    assert Said(u[..1]) == Said([]) + [a];
    assert Said(u) == Said(u[..1]);
  }

  /** `stopReading` cancels the utterance, but its loop goes on: the next entry is said
      when the cancelled one ends. */
  method StopDoesNotStopLoop(t: string, a: string, b: string)
    requires Published(t) == [a, b]
  {
    var r := new SentenceReader();
    r.ReadStream(t);
    r.StopReading();
    r.SpeechEnded();
    assert r.uttered == [Some(a), Some(b)] && r.cancels == 1;
  }

  /** The ordering law carried through a whole run of a growing answer: two snapshots,
      an utterance ending, the end of the stream, a last snapshot, then a new turn. */
  method OrderedThroughRun(t1: string, t2: string, t3: string, u: string)
    requires t1 <= t2 <= t3
  {
    var r := new SentenceReader();
    r.ReadStream(t1);
    assert r.Ordered();
    r.ReadStream(t2);
    assert r.Ordered();
    if r.pending > 0 {
      r.SpeechEnded();
      assert r.Ordered();
    }
    r.EndOfStream();
    r.ReadStream(t3);
    assert r.Ordered();
    if r.pending == 0 {
      r.Restart();
      r.ReadStream(u);
      assert r.Ordered();
    }
  }
}
