/**
  The older sentence-queue reader `useReader` (src/preact/reader.tsx:23-83).

  The four refs of the hook are the fields `sentences`, `index` (`sntncsIndex`),
  `reading` and `streamComplete`. `speakText` is abstract: `ReadingLoop` records what
  it is handed in `uttered` and leaves the calling `readingLoop` suspended, counted in
  `pending`; `SpeechEnded` runs the rest of a suspended call when the utterance ends.
  `sentences[sntncsIndex]` past the end of the list is `undefined` in the code; it is
  `None` here. `cancels` counts the calls to `speechSynthesis.cancel`.
*/
module SentenceReading {
  import opened Wrappers
  import opened Sentences

  /** `s[i]` as JavaScript reads an array: `undefined` past its end. */
  function At(s: seq<string>, i: nat): (r: Option<string>)
    ensures r.Some? <==> i < |s|
    ensures r.Some? ==> r.value == s[i]
  {
    if i < |s| then Some(s[i]) else None
  }

  /** The sentences actually said, in order: the utterances that held one. */
  function Said(uttered: seq<Option<string>>): seq<string> {
    if uttered == [] then []
    else
      var init := Said(uttered[..|uttered| - 1]);
      match uttered[|uttered| - 1]
      case None => init
      case Some(x) => init + [x]
  }

  /** Every utterance that held a sentence held the one at its own position. */
  ghost predicate InPlace(uttered: seq<Option<string>>, sentences: seq<string>) {
    forall i :: 0 <= i < |uttered| && uttered[i].Some? ==> i < |sentences| && uttered[i].value == sentences[i]
  }

  /** With every utterance in place and none of them empty-handed, what was said is the
      list of sentences from its start, without a gap or a repeat. */
  lemma {:induction false} SaidIsPrefix(uttered: seq<Option<string>>, sentences: seq<string>)
    requires InPlace(uttered, sentences)
    requires forall i :: 0 <= i < |uttered| ==> uttered[i].Some?
    ensures |uttered| <= |sentences|
    ensures Said(uttered) == sentences[..|uttered|]
  {
    if uttered != [] {
      var n := |uttered|;
      var init := uttered[..n - 1];
      assert InPlace(init, sentences);
      SaidIsPrefix(init, sentences);
      assert uttered[n - 1].Some?;
      assert sentences[..n] == sentences[..n - 1] + [sentences[n - 1]];
    }
  }

  /** An utterance past the end of the list says nothing, so a sentence published
      later at that position is never said by this loop. */
  lemma {:induction false} SaidSkipsOverrun(uttered: seq<Option<string>>, sentences: seq<string>, k: nat)
    requires InPlace(uttered, sentences)
    requires k < |uttered| <= |sentences| && uttered[k].None?
    requires forall i :: 0 <= i < |uttered| && i != k ==> uttered[i].Some?
    ensures Said(uttered) == sentences[..k] + sentences[k + 1..|uttered|]
    decreases |uttered|
  {
    var n := |uttered|;
    var init := uttered[..n - 1];
    assert InPlace(init, sentences);
    if k == n - 1 {
      SaidIsPrefix(init, sentences);
      assert sentences[k + 1..n] == [];
    } else {
      SaidSkipsOverrun(init, sentences, k);
      assert uttered[n - 1].Some?;
      assert sentences[k + 1..n] == sentences[k + 1..n - 1] + [sentences[n - 1]];
    }
  }

  /** Utterances in place stay in place when the list only grows at its end. */
  lemma InPlaceGrows(uttered: seq<Option<string>>, sentences: seq<string>, sentences': seq<string>)
    requires InPlace(uttered, sentences) && sentences <= sentences'
    ensures InPlace(uttered, sentences')
  {
  }

  /** Nothing is published for an empty answer. */
  lemma PublishedEmpty()
    ensures Published("") == []
  {
    assert Pieces("") == ["", ""];
    assert ["", ""][..1] == [""] && [""][..0] == [];
  }

  class SentenceReader {
    var sentences: seq<string>
    var index: nat
    var reading: bool
    var streamComplete: bool
    /** What each `speakText` call of this turn was handed, in call order. */
    var uttered: seq<Option<string>>
    /** The `readingLoop` calls suspended in `await speakText(...)`. */
    var pending: nat
    /** How often `speechSynthesis.cancel` was called. */
    var cancels: nat
    /** The last snapshot handed to `readStream` in this turn. */
    ghost var lastText: string

    constructor ()
      ensures sentences == [] && index == 0 && !reading && !streamComplete
      ensures uttered == [] && pending == 0 && cancels == 0 && lastText == ""
      ensures Ordered()
    {
      sentences, index, reading, streamComplete := [], 0, false, false;
      uttered, pending, cancels := [], 0, 0;
      lastText := "";
      PublishedEmpty();
    }

    /** The ordering law: a single loop, one position per finished utterance, the list
        being what the last snapshot published, and every sentence said at its own
        position. */
    ghost predicate Ordered()
      reads this
      ensures Ordered() && (forall i :: 0 <= i < |uttered| ==> uttered[i].Some?) ==>
                |uttered| <= |sentences| && Said(uttered) == sentences[..|uttered|]
    {
      var law := && pending <= 1
                 && |uttered| == index + pending
                 && sentences == Published(lastText)
                 && InPlace(uttered, sentences);
      if law && (forall i :: 0 <= i < |uttered| ==> uttered[i].Some?) then
        SaidIsPrefix(uttered, sentences);
        law
      else
        law
    }

    /** reader.tsx:29-34: a new turn; an utterance still being said is not cancelled. */
    method Restart()
      modifies this
      ensures sentences == [] && index == 0 && !reading && !streamComplete
      ensures uttered == [] && pending == old(pending) && cancels == old(cancels) && lastText == ""
      ensures old(pending) == 0 ==> Ordered()
    {
      sentences := [];
      index := 0;
      reading := false;
      streamComplete := false;
      uttered := [];
      lastText := "";
      PublishedEmpty();
    }

    /** reader.tsx:36-38. */
    method EndOfStream()
      modifies this
      ensures streamComplete
      ensures sentences == old(sentences) && index == old(index) && reading == old(reading)
      ensures uttered == old(uttered) && pending == old(pending) && cancels == old(cancels)
      ensures lastText == old(lastText)
      ensures old(Ordered()) ==> Ordered()
    {
      streamComplete := true;
    }

    /** reader.tsx:40-43: the pending utterance ends early, but its loop goes on, since
        the loop only ever stops with `reading` set. */
    method StopReading()
      modifies this
      ensures !reading && cancels == old(cancels) + 1
      ensures sentences == old(sentences) && index == old(index) && streamComplete == old(streamComplete)
      ensures uttered == old(uttered) && pending == old(pending) && lastText == old(lastText)
      ensures old(Ordered()) ==> Ordered()
    {
      reading := false;
      cancels := cancels + 1;
    }

    /** reader.tsx:45-58: publish every sentence but the last, only when that list is
        longer than the stored one; start a loop only when none is marked as running. */
    method ReadStream(text: string)
      modifies this
      ensures var pub := Published(text);
              sentences == if |pub| > |old(sentences)| then pub else old(sentences)
      ensures var started := |Published(text)| > |old(sentences)| && !old(reading);
              && (started ==>
                    reading && uttered == old(uttered) + [At(Published(text), old(index))]
                    && pending == old(pending) + 1)
              && (!started ==>
                    reading == old(reading) && uttered == old(uttered) && pending == old(pending))
      ensures index == old(index) && streamComplete == old(streamComplete) && cancels == old(cancels)
      ensures lastText == text
      ensures old(Ordered()) && old(lastText) <= text && (old(reading) || old(pending) == 0) ==> Ordered()
    {
      ghost var before := lastText;
      ghost var kept := Ordered() && before <= text && (reading || pending == 0);
      lastText := text;
      var withoutLast := Published(text);
      if kept {
        PublishedGrows(before, text);
        InPlaceGrows(uttered, sentences, withoutLast);
      }
      if |withoutLast| > |sentences| {
        sentences := withoutLast;
        if !reading {
          reading := true;
          ReadingLoop();
        }
      }
    }

    /** reader.tsx:60-62: one `readingLoop` call up to its await. */
    method ReadingLoop()
      modifies this
      ensures uttered == old(uttered) + [At(old(sentences), old(index))] && pending == old(pending) + 1
      ensures sentences == old(sentences) && index == old(index) && reading == old(reading)
      ensures streamComplete == old(streamComplete) && cancels == old(cancels) && lastText == old(lastText)
      ensures old(InPlace(uttered, sentences)) && old(|uttered|) == old(index) ==> InPlace(uttered, sentences)
    {
      var next := At(sentences, index);
      uttered := uttered + [next];
      pending := pending + 1;
    }

    /** reader.tsx:63-73: an utterance ends; the index moves on by one, and the loop
        stops only when it is marked as running, the stream is complete and the index
        has reached the end of the list; otherwise it says the next entry. */
    method SpeechEnded()
      requires pending > 0
      modifies this
      ensures index == old(index) + 1
      ensures sentences == old(sentences) && reading == old(reading)
      ensures streamComplete == old(streamComplete) && cancels == old(cancels) && lastText == old(lastText)
      ensures if reading && streamComplete && index >= |sentences|
              then uttered == old(uttered) && pending == old(pending) - 1
              else uttered == old(uttered) + [At(sentences, index)] && pending == old(pending)
      ensures old(Ordered()) ==> Ordered()
    {
      pending := pending - 1;
      index := index + 1;
      if reading && streamComplete && index >= |sentences| {
        return;
      }
      ReadingLoop();
    }
  }
}
