/**
  `splitIntoSentences` of the older sentence-queue reader (src/preact/reader.tsx:3-9):
  split the text at every `.`, `!` or `?`, split the first sentence once more at its
  first comma (rejoining the rest of that sentence with commas), and drop the empty
  strings. `Split` is JavaScript's `String.prototype.split` at a set of separator
  characters (the class `/[.!?]/`, or the single `","`); `Join` and `NonEmpty` are
  `Array.prototype.join` and `filter(Boolean)`.
*/
module Sentences {
  import opened Segmenter

  /** `s` holds no character of `chars`. */
  ghost predicate Avoids(s: string, chars: set<char>) {
    forall k :: 0 <= k < |s| ==> s[k] !in chars
  }

  /** The pieces of `s` between the characters of `seps`; `""` gives `[""]`. */
  function Split(s: string, seps: set<char>): (parts: seq<string>)
    ensures |parts| >= 1
    decreases |s|
  {
    if s == [] then [""]
    else
      var init := Split(s[..|s| - 1], seps);
      var c := s[|s| - 1];
      if c in seps then init + [""]
      else init[..|init| - 1] + [init[|init| - 1] + [c]]
  }

  /** The pieces separated by `sep`; `[]` gives `""`. The join starts with the first
      piece and holds a separator between any two pieces. */
  function Join(parts: seq<string>, sep: char): (r: string)
    ensures |parts| >= 1 ==> parts[0] <= r
    decreases |parts|
  {
    if |parts| == 0 then ""
    else if |parts| == 1 then parts[0]
    else Join(parts[..|parts| - 1], sep) + [sep] + parts[|parts| - 1]
  }

  /** The parts that are not empty, in order. */
  function NonEmpty(parts: seq<string>): (r: seq<string>)
    ensures |r| <= |parts|
    ensures forall i :: 0 <= i < |r| ==> r[i] != ""
    ensures forall i :: 0 <= i < |r| ==> r[i] in parts
    decreases |parts|
  {
    if parts == [] then []
    else
      var init := NonEmpty(parts[..|parts| - 1]);
      if parts[|parts| - 1] == "" then init else init + [parts[|parts| - 1]]
  }

  /** reader.tsx:3-9. */
  function SplitIntoSentences(text: string): (r: seq<string>)
    ensures forall i :: 0 <= i < |r| ==> r[i] != ""
    ensures forall i :: 0 <= i < |r| ==> Avoids(r[i], Terminators)
  {
    var sentences := Split(text, Terminators);
    var subs := Split(sentences[0], {','});
    SplitAvoids(text, Terminators);
    SplitKeepsAvoiding(sentences[0], {','}, Terminators);
    JoinKeepsAvoiding(subs[1..], ',', Terminators);
    NonEmpty([subs[0], Join(subs[1..], ',')] + sentences[1..])
  }

  /** reader.tsx:48: what `readStream` publishes, `split.slice(0, -1)`: every sentence but
      the last, which may still be growing. */
  function Published(text: string): seq<string> {
    AllButLast(SplitIntoSentences(text))
  }

  /** `slice(0, -1)`: the list without its last element, empty for an empty list. */
  function AllButLast(s: seq<string>): (r: seq<string>)
    ensures r <= s
    ensures |r| == if s == [] then 0 else |s| - 1
  {
    if |s| == 0 then [] else s[..|s| - 1]
  }

  /** No piece holds a separator. */
  lemma {:induction false} SplitAvoids(s: string, seps: set<char>)
    ensures forall i :: 0 <= i < |Split(s, seps)| ==> Avoids(Split(s, seps)[i], seps)
    decreases |s|
  {
    if s != [] {
      SplitAvoids(s[..|s| - 1], seps);
    }
  }

  lemma {:induction false} SplitKeepsAvoiding(s: string, seps: set<char>, chars: set<char>)
    requires Avoids(s, chars)
    ensures forall i :: 0 <= i < |Split(s, seps)| ==> Avoids(Split(s, seps)[i], chars)
    decreases |s|
  {
    if s != [] {
      SplitKeepsAvoiding(s[..|s| - 1], seps, chars);
    }
  }

  lemma {:induction false} JoinKeepsAvoiding(parts: seq<string>, sep: char, chars: set<char>)
    requires sep !in chars
    requires forall i :: 0 <= i < |parts| ==> Avoids(parts[i], chars)
    ensures Avoids(Join(parts, sep), chars)
    decreases |parts|
  {
    if |parts| > 1 {
      JoinKeepsAvoiding(parts[..|parts| - 1], sep, chars);
    }
  }

  /** Splitting at one character and joining with it gives the text back. */
  lemma {:induction false} JoinSplit(s: string, sep: char)
    ensures Join(Split(s, {sep}), sep) == s
    decreases |s|
  {
    if s != [] {
      var s' := s[..|s| - 1];
      var c := s[|s| - 1];
      assert s == s' + [c];
      JoinSplit(s', sep);
      SplitAppend(s', c, {sep});
      if c == sep {
        JoinAppendEmpty(Split(s', {sep}), sep);
      } else {
        JoinGrowLast(Split(s', {sep}), sep, c);
      }
    }
  }

  /** One more character: a separator opens an empty piece, any other character
      grows the last piece. */
  lemma SplitAppend(s: string, c: char, seps: set<char>)
    ensures var init := Split(s, seps);
            Split(s + [c], seps)
            == if c in seps then init + [""] else init[..|init| - 1] + [init[|init| - 1] + [c]]
  {
    assert (s + [c])[..|s|] == s;
  }

  /** The separator characters of `s`, in order. */
  function Seps(s: string, seps: set<char>): (r: string)
    ensures |r| <= |s|
    ensures forall k :: 0 <= k < |r| ==> r[k] in seps
    decreases |s|
  {
    if s == [] then []
    else Seps(s[..|s| - 1], seps) + (if s[|s| - 1] in seps then [s[|s| - 1]] else [])
  }

  /** The pieces with the characters of `between` put back between them, in order. */
  function Interleave(parts: seq<string>, between: string): string
    requires |parts| == |between| + 1
    decreases |between|
  {
    if |between| == 0 then parts[0]
    else Interleave(parts[..|parts| - 1], between[..|between| - 1]) + [between[|between| - 1]] + parts[|parts| - 1]
  }

  /** Growing the last piece grows the interleaved text by the same characters. */
  lemma InterleaveGrowLast(parts: seq<string>, between: string, x: string)
    requires |parts| == |between| + 1
    ensures Interleave(parts[..|parts| - 1] + [parts[|parts| - 1] + x], between) == Interleave(parts, between) + x
  {
    var q := parts[..|parts| - 1] + [parts[|parts| - 1] + x];
    assert q[..|q| - 1] == parts[..|parts| - 1];
  }

  /** The pieces of a split are the text between its separators, in order: there is
      one piece more than there are separators, and putting the separators back
      between the pieces gives the text. With `SplitAvoids`, this fixes every piece. */
  lemma {:induction false} SplitRoundTrip(s: string, seps: set<char>)
    ensures |Split(s, seps)| == |Seps(s, seps)| + 1
    ensures Interleave(Split(s, seps), Seps(s, seps)) == s
    decreases |s|
  {
    if s != [] {
      var s', c := s[..|s| - 1], s[|s| - 1];
      assert s == s' + [c];
      SplitRoundTrip(s', seps);
      SplitAppend(s', c, seps);
      var init, between := Split(s', seps), Seps(s', seps);
      if c in seps {
        var p, b := init + [""], between + [c];
        assert p[..|p| - 1] == init && b[..|b| - 1] == between;
      } else {
        assert Seps(s, seps) == between;
        InterleaveGrowLast(init, between, [c]);
      }
    }
  }

  /** A text split into one piece is that piece. */
  lemma {:induction false} SplitSingle(s: string, seps: set<char>)
    requires |Split(s, seps)| == 1
    ensures Split(s, seps) == [s]
    decreases |s|
  {
    if s != [] {
      SplitSingle(s[..|s| - 1], seps);
      assert s[..|s| - 1] + [s[|s| - 1]] == s;
    }
  }

  /** A text without separators is one piece. */
  lemma {:induction false} SplitWithoutSeparator(s: string, seps: set<char>)
    requires Avoids(s, seps)
    ensures Split(s, seps) == [s]
    decreases |s|
  {
    if s != [] {
      SplitWithoutSeparator(s[..|s| - 1], seps);
      assert s[..|s| - 1] + [s[|s| - 1]] == s;
    }
  }

  /** Joining from the front: the first piece, the separator, then the rest joined. */
  lemma {:induction false} JoinFront(parts: seq<string>, sep: char)
    requires |parts| >= 2
    ensures Join(parts, sep) == parts[0] + [sep] + Join(parts[1..], sep)
    decreases |parts|
  {
    if |parts| > 2 {
      JoinFront(parts[..|parts| - 1], sep);
      assert parts[..|parts| - 1][1..] == parts[1..][..|parts| - 2];
    }
  }

  /** reader.tsx:5-6: the first sentence is cut at its first comma: the leading piece
      holds no comma, and the leading piece, a comma and the rejoined rest make up the
      whole sentence again. */
  lemma FirstCommaSplit(sentence: string)
    ensures var subs := Split(sentence, {','});
            && Avoids(subs[0], {','})
            && (Avoids(sentence, {','}) ==> subs == [sentence] && Join(subs[1..], ',') == "")
            && (!Avoids(sentence, {','}) ==> sentence == subs[0] + [','] + Join(subs[1..], ','))
  {
    var subs := Split(sentence, {','});
    SplitAvoids(sentence, {','});
    if Avoids(sentence, {','}) {
      SplitWithoutSeparator(sentence, {','});
    } else {
      JoinSplit(sentence, ',');
      JoinFront(subs, ',');
    }
  }

  /** reader.tsx:3-9: a non-empty text with no `.`, `!`, `?` or `,` is one sentence. */
  lemma SingleSentence(text: string)
    requires text != ""
    requires Avoids(text, Terminators + {','})
    ensures SplitIntoSentences(text) == [text]
  {
    SplitWithoutSeparator(text, Terminators);
    SplitWithoutSeparator(text, {','});
    assert Pieces(text) == [text, ""];
    assert [text, ""][..1] == [text] && [text][..0] == [];
    assert NonEmpty([text, ""]) == NonEmpty([text]) == [text];
  }

  /** A single part is kept exactly when it is not empty; with `NonEmptyAppend`, this
      fixes `filter(Boolean)` on every list. */
  lemma NonEmptySingle(x: string)
    ensures NonEmpty([x]) == if x == "" then [] else [x]
  {
    assert [x][..0] == [];
  }

  /** `filter` distributes over concatenation. */
  lemma {:induction false} NonEmptyAppend(a: seq<string>, b: seq<string>)
    ensures NonEmpty(a + b) == NonEmpty(a) + NonEmpty(b)
    decreases |b|
  {
    if b == [] {
      assert a + b == a;
    } else {
      var x := b[|b| - 1];
      NonEmptyAppend(a, b[..|b| - 1]);
      assert (a + b)[..|a + b| - 1] == a + b[..|b| - 1];
      assert (a + b)[|a + b| - 1] == x;
      assert NonEmpty(a + b) == NonEmpty(a + b[..|b| - 1]) + (if x == "" then [] else [x]);
      assert NonEmpty(b) == NonEmpty(b[..|b| - 1]) + (if x == "" then [] else [x]);
    }
  }

  /** reader.tsx:6: the pieces before filtering, the two comma pieces of the first
      sentence first; `PiecesRebuild` says what they hold. */
  function Pieces(text: string): seq<string> {
    var sentences := Split(text, Terminators);
    var subs := Split(sentences[0], {','});
    [subs[0], Join(subs[1..], ',')] + sentences[1..]
  }

  /** The leading comma piece and the rest, with the comma between them when there is
      one, make up the first sentence; the later pieces are the later sentences. */
  lemma PiecesRebuild(text: string)
    ensures var sentences, r := Split(text, Terminators), Pieces(text);
            && |r| == |sentences| + 1
            && r[2..] == sentences[1..]
            && Avoids(r[0], {','})
            && (Avoids(sentences[0], {','}) ==> r[0] == sentences[0] && r[1] == "")
            && (!Avoids(sentences[0], {','}) ==> sentences[0] == r[0] + [','] + r[1])
  {
    FirstCommaSplit(Split(text, Terminators)[0]);
  }

  /** Growing the last element of a list of two or more keeps its head and grows the
      last element of its tail. */
  lemma GrowLastTail(s: seq<string>, x: string)
    requires |s| >= 2
    ensures var g := s[..|s| - 1] + [s[|s| - 1] + x];
            && g[0] == s[0]
            && g[1..] == s[1..][..|s| - 2] + [s[|s| - 1] + x]
  {
  }

  /** Growing the last element of `r` grows the last element of `h + r`. */
  lemma GrowLastOfAppend(h: seq<string>, r: seq<string>, x: string)
    requires |r| >= 1
    ensures var hr := h + r;
            h + (r[..|r| - 1] + [r[|r| - 1] + x]) == hr[..|hr| - 1] + [hr[|hr| - 1] + x]
  {
    var hr := h + r;
    assert hr[..|hr| - 1] == h + r[..|r| - 1];
  }

  /** Growing the last piece keeps all filtered pieces but the last, and never shrinks
      the filtered list. */
  lemma GrowLast(p: seq<string>, x: string)
    requires |p| >= 1
    ensures KeepsAllButLast(p, p[..|p| - 1] + [p[|p| - 1] + x])
  {
    var init := p[..|p| - 1];
    var q := init + [p[|p| - 1] + x];
    assert p == init + [p[|p| - 1]];
    NonEmptyAppend(init, [p[|p| - 1]]);
    NonEmptyAppend(init, [p[|p| - 1] + x]);
    assert NonEmpty([p[|p| - 1]]) == NonEmpty([])+ (if p[|p| - 1] == "" then [] else [p[|p| - 1]]);
    assert NonEmpty([p[|p| - 1] + x]) == NonEmpty([]) + (if p[|p| - 1] + x == "" then [] else [p[|p| - 1] + x]);
  }

  /** The conclusion of `AppendOne` for one pair of piece lists. */
  ghost predicate KeepsAllButLast(p: seq<string>, p': seq<string>) {
    var np := NonEmpty(p);
    && (|np| == 0 || np[..|np| - 1] <= NonEmpty(p'))
    && |np| <= |NonEmpty(p')|
  }

  /** A terminator opens a new, empty sentence piece. */
  lemma AppendTerminator(t: string, c: char)
    requires c in Terminators
    ensures KeepsAllButLast(Pieces(t), Pieces(t + [c]))
  {
    var t' := t + [c];
    assert t'[..|t'| - 1] == t;
    var p := Pieces(t);
    assert Split(t', Terminators) == Split(t, Terminators) + [""];
    assert Pieces(t') == p + [""];
    NonEmptyAppend(p, [""]);
    assert NonEmpty([""]) == [];
  }

  /** Past the first sentence, a character grows the last sentence piece. */
  lemma AppendToLaterSentence(t: string, c: char)
    requires c !in Terminators
    requires |Split(t, Terminators)| >= 2
    ensures var p := Pieces(t);
            Pieces(t + [c]) == p[..|p| - 1] + [p[|p| - 1] + [c]]
  {
    var t' := t + [c];
    assert t'[..|t'| - 1] == t;
    var raw := Split(t, Terminators);
    var raw' := Split(t', Terminators);
    var p := Pieces(t);
    SplitAppend(t, c, Terminators);
    GrowLastTail(raw, [c]);
    var subs := Split(raw[0], {','});
    var head := [subs[0], Join(subs[1..], ',')];
    assert p == head + raw[1..];
    assert Pieces(t') == head + (raw[1..][..|raw| - 2] + [raw[|raw| - 1] + [c]]);
    GrowLastOfAppend(head, raw[1..], [c]);
  }

  /** A text of one sentence gives its first comma piece and the rejoined rest. */
  lemma FirstSentencePieces(t: string)
    requires Split(t, Terminators) == [t]
    ensures var subs := Split(t, {','});
            Pieces(t) == [subs[0], Join(subs[1..], ',')]
  {
  }

  /** Within the first sentence, before its first comma, a character other than a comma
      grows the leading piece. */
  lemma AppendBeforeComma(t: string, c: char)
    requires c !in Terminators && c != ','
    requires Split(t, Terminators) == [t]
    requires Split(t, {','}) == [t]
    ensures KeepsAllButLast(Pieces(t), Pieces(t + [c]))
  {
    var t' := t + [c];
    SplitAppend(t, c, Terminators);
    SplitAppend(t, c, {','});
    FirstSentencePieces(t);
    FirstSentencePieces(t');
    NonEmptyPair(t);
    NonEmptyPair(t');
  }

  /** A piece followed by an empty one filters to that piece, if it is not empty. */
  lemma NonEmptyPair(x: string)
    ensures NonEmpty([x, ""]) == if x == "" then [] else [x]
  {
    assert [x, ""][..1] == [x] && [x][..0] == [];
  }

  /** The first comma of the first sentence: the pieces do not change, since the rest
      after it is still empty. */
  lemma AppendFirstComma(t: string)
    requires Split(t, Terminators) == [t]
    requires Split(t, {','}) == [t]
    ensures Pieces(t + [',']) == Pieces(t)
  {
    var t' := t + [','];
    SplitAppend(t, ',', Terminators);
    SplitAppend(t, ',', {','});
    FirstSentencePieces(t);
    FirstSentencePieces(t');
    assert Split(t', {','}) == [t, ""];
  }

  /** Within the first sentence, after its first comma: the rejoined rest grows by the
      character, a comma included. */
  lemma AppendAfterComma(t: string, c: char)
    requires c !in Terminators
    requires Split(t, Terminators) == [t]
    requires |Split(t, {','})| >= 2
    ensures var p := Pieces(t);
            Pieces(t + [c]) == p[..|p| - 1] + [p[|p| - 1] + [c]]
  {
    var t' := t + [c];
    SplitAppend(t, c, Terminators);
    FirstSentencePieces(t);
    FirstSentencePieces(t');
    var subs := Split(t, {','});
    var subs' := Split(t', {','});
    RestGrows(t, c);
    assert Pieces(t) == [subs[0], Join(subs[1..], ',')];
    assert Pieces(t') == [subs[0], Join(subs[1..], ',') + [c]];
  }

  /** After the first comma, one more character keeps the leading comma piece and
      grows the rejoined rest by that character. */
  lemma RestGrows(t: string, c: char)
    requires |Split(t, {','})| >= 2
    ensures var subs, subs' := Split(t, {','}), Split(t + [c], {','});
            && subs'[0] == subs[0]
            && Join(subs'[1..], ',') == Join(subs[1..], ',') + [c]
  {
    SplitAppend(t, c, {','});
    var subs := Split(t, {','});
    if c == ',' {
      JoinAppendEmpty(subs[1..], ',');
      assert Split(t + [c], {','})[1..] == subs[1..] + [""];
    } else {
      GrowLastTail(subs, [c]);
      JoinGrowLast(subs[1..], ',', c);
    }
  }

  /** Joining one more, empty, piece adds the separator. */
  lemma JoinAppendEmpty(parts: seq<string>, sep: char)
    requires |parts| >= 1
    ensures Join(parts + [""], sep) == Join(parts, sep) + [sep]
  {
    assert (parts + [""])[..|parts|] == parts;
  }

  /** Appending one character to a text keeps every sentence but the last. */
  lemma AppendOne(t: string, c: char)
    ensures var np := SplitIntoSentences(t);
            && (|np| == 0 || np[..|np| - 1] <= SplitIntoSentences(t + [c]))
            && |np| <= |SplitIntoSentences(t + [c])|
  {
    SentencesOfPieces(t);
    SentencesOfPieces(t + [c]);
    AppendOnePieces(t, c);
  }

  /** `splitIntoSentences` is the filtered pieces. */
  lemma SentencesOfPieces(t: string)
    ensures SplitIntoSentences(t) == NonEmpty(Pieces(t))
  {
  }

  /** `AppendOne`, case by case, on the pieces before filtering. */
  lemma AppendOnePieces(t: string, c: char)
    ensures KeepsAllButLast(Pieces(t), Pieces(t + [c]))
  {
    if c in Terminators {
      AppendTerminator(t, c);
    } else if |Split(t, Terminators)| >= 2 {
      AppendToLaterSentence(t, c);
      GrowLast(Pieces(t), [c]);
    } else {
      SplitSingle(t, Terminators);
      if |Split(t, {','})| == 1 {
        SplitSingle(t, {','});
        if c == ',' {
          AppendFirstComma(t);
        } else {
          AppendBeforeComma(t, c);
        }
      } else {
        AppendAfterComma(t, c);
        GrowLast(Pieces(t), [c]);
      }
    }
  }

  /** Growing the last piece grows the joined text by the same character. */
  lemma JoinGrowLast(parts: seq<string>, sep: char, c: char)
    requires |parts| >= 1
    ensures Join(parts[..|parts| - 1] + [parts[|parts| - 1] + [c]], sep) == Join(parts, sep) + [c]
  {
    var q := parts[..|parts| - 1] + [parts[|parts| - 1] + [c]];
    assert q[..|q| - 1] == parts[..|parts| - 1];
  }

  /** If `s` without its last element is a prefix of a list no shorter than `s`, whose
      own all-but-last is a prefix of `w`, then so is the all-but-last of `s`. */
  lemma AllButLastStep(s: seq<string>, su: seq<string>, w: seq<string>)
    requires |s| == 0 || s[..|s| - 1] <= su
    requires |s| <= |su|
    requires AllButLast(su) <= w
    ensures AllButLast(s) <= w
  {
    if |s| > 0 {
      assert AllButLast(s) == AllButLast(su)[..|s| - 1];
    }
  }

  /** reader.tsx:46-50 under a growing answer: whatever `readStream` published for a
      snapshot is kept, in order, by what it publishes for any later snapshot. */
  lemma {:induction false} PublishedGrows(t: string, t': string)
    requires t <= t'
    ensures Published(t) <= Published(t')
    decreases |t'| - |t|
  {
    if |t| < |t'| {
      var u := t'[..|t| + 1];
      assert u == t + [t'[|t|]];
      AppendOne(t, t'[|t|]);
      PublishedGrows(u, t');
      AllButLastStep(SplitIntoSentences(t), SplitIntoSentences(u), Published(t'));
    } else {
      assert t == t';
    }
  }
}
