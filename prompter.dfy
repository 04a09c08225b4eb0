/**
  The prompt box `Prompter` (src/preact/Prompter.tsx:3-60): two state cells, the typed
  or dictated `prompt` and the interim `transcript` of speech recognition, and the text
  the textarea shows, derived from both. `onPrompt` is abstract: `submitted` records
  what it was handed, in call order. A state update is applied at once; within
  `onTranscript` the three updates are applied in order, which is the state after
  the batch.
*/
module Prompting {

  /** Prompter.tsx:11: the textarea's text, the transcript on a line of its own after the
      prompt while there is one. */
  function Display(prompt: string, transcript: string): (r: string)
    ensures prompt <= r
    ensures transcript == "" ==> r == prompt
    ensures transcript != "" ==>
              && |r| == |prompt| + 1 + |transcript|
              && r[|prompt|] == '\n'
              && r[|prompt| + 1..] == transcript
  {
    prompt + (if transcript != "" then "\n" + transcript else "")
  }

  /** Prompter.tsx:34-35: Enter with Ctrl or Meta held; a plain Enter does not submit. */
  predicate IsSubmitKey(key: string, ctrlKey: bool, metaKey: bool)
    ensures IsSubmitKey(key, ctrlKey, metaKey) ==> key == "Enter"
    ensures !ctrlKey && !metaKey ==> !IsSubmitKey(key, ctrlKey, metaKey)
    ensures key == "Enter" && (ctrlKey || metaKey) ==> IsSubmitKey(key, ctrlKey, metaKey)
  {
    key == "Enter" && (ctrlKey || metaKey)
  }

  /** Prompter.tsx:11-18: when speech recognition finalises the words it was showing as
      the interim transcript, the textarea shows the same text before and after. */
  lemma FinalKeepsDisplay(prompt: string, tx: string)
    requires tx != ""
    ensures Display(prompt + "\n" + tx, "") == Display(prompt, tx)
  {
  }

  /** Prompter.tsx:11 and 49: the textarea shows the transcript, and an edit stores the
      whole shown text as the prompt while the transcript stays, so after an edit that
      changes nothing the transcript is shown twice. */
  lemma EditRepeatsTranscript(prompt: string, transcript: string)
    requires transcript != ""
    ensures Display(Display(prompt, transcript), transcript)
            == prompt + "\n" + transcript + "\n" + transcript
  {
  }

  /** Prompter.tsx:11: the display determines the prompt and the transcript when the
      transcript holds no line break: the prompt is everything before the last line. */
  lemma DisplayDeterminesState(p1: string, t1: string, p2: string, t2: string)
    requires t1 != "" && t2 != ""
    requires forall k :: 0 <= k < |t1| ==> t1[k] != '\n'
    requires forall k :: 0 <= k < |t2| ==> t2[k] != '\n'
    requires Display(p1, t1) == Display(p2, t2)
    ensures p1 == p2 && t1 == t2
  {
  }

  class Prompter {
    var prompt: string
    var transcript: string
    /** What `onPrompt` was handed, in call order. */
    var submitted: seq<string>

    constructor ()
      ensures prompt == "" && transcript == "" && submitted == []
    {
      prompt, transcript, submitted := "", "", [];
    }

    function TextValue(): string
      reads this
    {
      Display(prompt, transcript)
    }

    /** Prompter.tsx:13-19: an interim transcript replaces the shown one; a final one is
        appended to the prompt on a new line and the transcript is emptied. */
    method OnTranscript(tx: string, final: bool)
      modifies this
      ensures final ==> prompt == old(prompt) + "\n" + tx && transcript == ""
      ensures !final ==> prompt == old(prompt) && transcript == tx
      ensures submitted == old(submitted)
      ensures final && tx != "" && old(transcript) == tx ==> TextValue() == old(TextValue())
    {
      transcript := tx;
      if final {
        prompt := prompt + "\n" + tx;
        transcript := "";
        if tx != "" {
          FinalKeepsDisplay(old(prompt), tx);
        }
      }
    }

    /** Prompter.tsx:21-26: the prompt before the call is handed on and emptied; the
        transcript stays. */
    method SubmitPrompt()
      modifies this
      ensures submitted == old(submitted) + [old(prompt)]
      ensures prompt == "" && transcript == old(transcript)
    {
      var p := prompt;
      prompt := "";
      submitted := submitted + [p];
    }

    /** Prompter.tsx:28-31: the form's submit event; its default action is prevented. */
    method OnSubmit() returns (prevented: bool)
      modifies this
      ensures prevented
      ensures submitted == old(submitted) + [old(prompt)]
      ensures prompt == "" && transcript == old(transcript)
    {
      prevented := true;
      SubmitPrompt();
    }

    /** Prompter.tsx:33-39: Ctrl+Enter or Meta+Enter submits and prevents the default
        action; any other key changes nothing. */
    method KeyEvent(key: string, ctrlKey: bool, metaKey: bool) returns (prevented: bool)
      modifies this
      ensures prevented <==> IsSubmitKey(key, ctrlKey, metaKey)
      ensures prevented ==> submitted == old(submitted) + [old(prompt)] && prompt == ""
      ensures !prevented ==> submitted == old(submitted) && prompt == old(prompt)
      ensures transcript == old(transcript)
    {
      prevented := key == "Enter" && (ctrlKey || metaKey);
      if prevented {
        SubmitPrompt();
      }
    }

    /** Prompter.tsx:49: an edit stores the whole text of the textarea as the prompt,
        including any transcript shown in it; the transcript itself stays. */
    method OnInput(value: string)
      modifies this
      ensures prompt == value && transcript == old(transcript) && submitted == old(submitted)
      ensures old(transcript) != "" && value == old(TextValue()) ==>
                TextValue() == old(TextValue()) + "\n" + transcript
    {
      prompt := value;
    }
  }
}
