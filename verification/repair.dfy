/**
 * The repair loop `_generate_method` of main.py, with `send_message`.
 *
 * The conversation starts with the prompt as one user turn. Every model call
 * appends the reply as an assistant turn; every retry first appends the
 * previous error text as a user turn. The loop stops at the first reply whose
 * code runs without an exception, or after `MaxTries` retries, and then returns
 * that code or the give-up sentinel.
 *
 * The chat model is a function from the whole conversation to the reply, and
 * `execute_script` is a function from a reply to the pair (code, error text);
 * `GenerateChecked` instantiates the latter with `Executor.ExecuteScript`.
 */
module RepairLoop {
  import Executor

  /** The retry budget (`MAX_TRIES`). */
  const MaxTries: nat := 10

  /** Returned when every attempt failed. */
  const GiveUp: string := "I couldn't find a solution for this problem."

  datatype Role = User | Assistant

  /** One role-tagged message. */
  datatype Turn = Turn(role: Role, content: string)

  type Conversation = seq<Turn>

  /** The hosted chat model: the reply it gives to a whole conversation. */
  type ChatModel = Conversation -> string

  /** `send_message`: ask the model and append its reply as an assistant turn. */
  function SendMessage(conv: Conversation, chat: ChatModel): (r: (Conversation, string))
    ensures |r.0| == |conv| + 1 && r.0[..|conv|] == conv
    ensures r.0[|conv|] == Turn(Assistant, r.1) && r.1 == chat(conv)
  {
    var reply := chat(conv);
    (conv + [Turn(Assistant, reply)], reply)
  }

  /** `execute_script`: the code extracted from a reply and the error text of running it ("" when it ran cleanly). */
  type Execute = string -> (string, string)

  /** The error text `execute_script` reports for a reply. */
  function ErrorOf(reply: string, execute: Execute): string {
    execute(reply).1
  }

  /** The reply of attempt `i` (attempt 0 answers the prompt, attempt i > 0 answers the i-th error). */
  function Reply(conv: Conversation, i: nat): string
    requires 2 * i + 1 < |conv|
  {
    conv[2 * i + 1].content
  }

  /** Turn 2i+1 is the model's reply to everything before it. */
  predicate AssistantTurnOk(conv: Conversation, i: nat, chat: ChatModel) {
    2 * i + 1 < |conv| && conv[2 * i + 1] == Turn(Assistant, chat(conv[..2 * i + 1]))
  }

  /** Turn 2i (i >= 1) is a user turn carrying the error of the previous attempt. */
  predicate FeedbackTurnOk(conv: Conversation, i: nat, execute: Execute) {
    1 <= i && 2 * i < |conv| && conv[2 * i] == Turn(User, ErrorOf(conv[2 * i - 1].content, execute))
  }

  /** `conv` is the conversation after attempts 0..tries. */
  predicate Transcript(prompt: string, chat: ChatModel, execute: Execute, conv: Conversation, tries: nat) {
    && |conv| == 2 + 2 * tries
    && conv[0] == Turn(User, prompt)
    && (forall i: nat :: i <= tries ==> AssistantTurnOk(conv, i, chat))
    && (forall i: nat :: 1 <= i <= tries ==> FeedbackTurnOk(conv, i, execute))
  }

  /**
   * Everything `_generate_method` promises about its run: at most `MaxTries`
   * retries, the conversation they produce, every retry caused by a failure,
   * and the result decided by the last attempt.
   */
  predicate LoopOutcome(prompt: string, chat: ChatModel, execute: Execute,
                        result: string, conv: Conversation, tries: nat) {
    && tries <= MaxTries
    && Transcript(prompt, chat, execute, conv, tries)
    && (forall i: nat :: i < tries ==> ErrorOf(Reply(conv, i), execute) != "")
    && (ErrorOf(Reply(conv, tries), execute) == "" ==> result == execute(Reply(conv, tries)).0)
    && (ErrorOf(Reply(conv, tries), execute) != "" ==> result == GiveUp && tries == MaxTries)
  }

  /**
   * `_generate_method` after the prompt is built: it returns the result, and
   * also the final conversation and retry count so that they can be stated.
   */
  method GenerateMethod(prompt: string, chat: ChatModel, execute: Execute)
    returns (result: string, conv: Conversation, tries: nat)
    ensures tries <= MaxTries
    ensures |conv| == 2 + 2 * tries
    ensures Transcript(prompt, chat, execute, conv, tries)
    ensures forall i: nat :: i < tries ==> ErrorOf(Reply(conv, i), execute) != ""
    ensures ErrorOf(Reply(conv, tries), execute) == "" ==> result == execute(Reply(conv, tries)).0
    ensures ErrorOf(Reply(conv, tries), execute) != "" ==> result == GiveUp && tries == MaxTries
    ensures LoopOutcome(prompt, chat, execute, result, conv, tries)
  {
    conv := [Turn(User, prompt)];
    tries := 0;
    var sent := SendMessage(conv, chat);
    assert AssistantTurnOk(sent.0, 0, chat) by {
      assert sent.0[..1] == conv;
    }
    conv := sent.0;
    var response := sent.1;
    var toRun, error := execute(response).0, execute(response).1;
    while error != "" && tries < MaxTries
      invariant tries <= MaxTries
      invariant Transcript(prompt, chat, execute, conv, tries)
      invariant response == Reply(conv, tries)
      invariant toRun == execute(response).0 && error == execute(response).1
      invariant forall i: nat :: i < tries ==> ErrorOf(Reply(conv, i), execute) != ""
      decreases MaxTries - tries
    {
      TranscriptExtend(prompt, chat, execute, conv, tries);
      conv := conv + [Turn(User, error)];
      sent := SendMessage(conv, chat);
      conv := sent.0;
      response := sent.1;
      toRun, error := execute(response).0, execute(response).1;
      tries := tries + 1;
    }
    if error != "" {
      result := GiveUp;
    } else {
      result := toRun;
    }
  }

  /**
   * `_generate_method` with the real `execute_script`: the answer is either
   * the give-up sentinel or code that ran without raising.
   */
  method GenerateChecked(prompt: string, chat: ChatModel, py: Executor.Interpreter) returns (result: string)
    ensures result == GiveUp || Executor.Run(result, py).Success?
  {
    var execute := (reply: string) => Executor.ExecuteScript(reply, py);
    var conv, tries;
    result, conv, tries := GenerateMethod(prompt, chat, execute);
    var last := Reply(conv, tries);
    assert execute(last) == Executor.ExecuteScript(last, py);
  }

  /** One retry (error turn, then the model's answer) extends a transcript by one attempt. */
  lemma TranscriptExtend(prompt: string, chat: ChatModel, execute: Execute, conv: Conversation, tries: nat)
    requires Transcript(prompt, chat, execute, conv, tries)
    ensures var asked := conv + [Turn(User, ErrorOf(Reply(conv, tries), execute))];
            var answered := asked + [Turn(Assistant, chat(asked))];
            && Transcript(prompt, chat, execute, answered, tries + 1)
            && answered[..|conv|] == conv
            && (forall i: nat :: i <= tries ==> Reply(answered, i) == Reply(conv, i))
  {
    var asked := conv + [Turn(User, ErrorOf(Reply(conv, tries), execute))];
    var answered := asked + [Turn(Assistant, chat(asked))];
    forall i: nat | i <= tries + 1
      ensures AssistantTurnOk(answered, i, chat)
    {
      if i <= tries {
        assert AssistantTurnOk(conv, i, chat);
        assert answered[..2 * i + 1] == conv[..2 * i + 1];
      } else {
        assert answered[..2 * i + 1] == asked;
      }
    }
    forall i: nat | 1 <= i <= tries + 1
      ensures FeedbackTurnOk(answered, i, execute)
    {
      if i <= tries {
        assert FeedbackTurnOk(conv, i, execute);
      }
    }
  }

  /** The first 2j+2 turns of a transcript are the transcript of attempts 0..j. */
  lemma TranscriptPrefix(prompt: string, chat: ChatModel, execute: Execute, conv: Conversation, tries: nat, j: nat)
    requires Transcript(prompt, chat, execute, conv, tries) && j <= tries
    ensures Transcript(prompt, chat, execute, conv[..2 + 2 * j], j)
    ensures forall i: nat :: i <= j ==> Reply(conv[..2 + 2 * j], i) == Reply(conv, i)
  {
    var pre := conv[..2 + 2 * j];
    forall i: nat | i <= j
      ensures AssistantTurnOk(pre, i, chat)
    {
      assert AssistantTurnOk(conv, i, chat);
      assert pre[..2 * i + 1] == conv[..2 * i + 1];
    }
    forall i: nat | 1 <= i <= j
      ensures FeedbackTurnOk(pre, i, execute)
    {
      assert FeedbackTurnOk(conv, i, execute);
    }
  }

  /** A transcript is determined by the prompt, the model, the interpreter and the number of retries. */
  lemma {:induction false} TranscriptUnique(prompt: string, chat: ChatModel, execute: Execute,
                                            c1: Conversation, c2: Conversation, tries: nat)
    requires Transcript(prompt, chat, execute, c1, tries) && Transcript(prompt, chat, execute, c2, tries)
    ensures c1 == c2
    decreases tries
  {
    assert AssistantTurnOk(c1, 0, chat) && AssistantTurnOk(c2, 0, chat);
    if tries == 0 {
      assert c1[..1] == [c1[0]] == [c2[0]] == c2[..1];
      assert c1 == [c1[0], c1[1]];
      assert c2 == [c2[0], c2[1]];
    } else {
      var t := tries - 1;
      TranscriptPrefix(prompt, chat, execute, c1, tries, t);
      TranscriptPrefix(prompt, chat, execute, c2, tries, t);
      TranscriptUnique(prompt, chat, execute, c1[..2 + 2 * t], c2[..2 + 2 * t], t);
      var n := 2 + 2 * t;
      assert c1[n - 1] == c1[..n][n - 1] == c2[..n][n - 1] == c2[n - 1];
      assert FeedbackTurnOk(c1, tries, execute) && FeedbackTurnOk(c2, tries, execute);
      assert c1[n] == c2[n];
      assert c1[..n + 1] == c1[..n] + [c1[n]];
      assert c2[..n + 1] == c2[..n] + [c2[n]];
      assert AssistantTurnOk(c1, tries, chat) && AssistantTurnOk(c2, tries, chat);
      assert c1 == c1[..n + 1] + [c1[n + 1]];
      assert c2 == c2[..n + 1] + [c2[n + 1]];
    }
  }

  /** The loop's outcome is a function of its inputs: the stated postcondition leaves no freedom. */
  lemma OutcomeDetermined(prompt: string, chat: ChatModel, execute: Execute,
                          r1: string, c1: Conversation, t1: nat, r2: string, c2: Conversation, t2: nat)
    requires LoopOutcome(prompt, chat, execute, r1, c1, t1)
    requires LoopOutcome(prompt, chat, execute, r2, c2, t2)
    ensures t1 == t2 && c1 == c2 && r1 == r2
  {
    if t1 < t2 {
      EarlierStopContradicts(prompt, chat, execute, r1, c1, t1, r2, c2, t2);
    } else if t2 < t1 {
      EarlierStopContradicts(prompt, chat, execute, r2, c2, t2, r1, c1, t1);
    }
    TranscriptUnique(prompt, chat, execute, c1, c2, t1);
  }

  /** A run cannot stop after fewer retries than another run of the same loop. */
  lemma EarlierStopContradicts(prompt: string, chat: ChatModel, execute: Execute,
                               r1: string, c1: Conversation, t1: nat, r2: string, c2: Conversation, t2: nat)
    requires LoopOutcome(prompt, chat, execute, r1, c1, t1)
    requires LoopOutcome(prompt, chat, execute, r2, c2, t2)
    ensures t1 >= t2
  {
    if t1 < t2 {
      SharedAttempt(prompt, chat, execute, c1, t1, c2, t2);
      assert false;
    }
  }

  /** Two transcripts agree on every attempt both of them made. */
  lemma SharedAttempt(prompt: string, chat: ChatModel, execute: Execute,
                      c1: Conversation, t1: nat, c2: Conversation, t2: nat)
    requires Transcript(prompt, chat, execute, c1, t1) && Transcript(prompt, chat, execute, c2, t2)
    requires t1 <= t2
    ensures c1 == c2[..|c1|]
    ensures Reply(c1, t1) == Reply(c2, t1)
  {
    TranscriptPrefix(prompt, chat, execute, c2, t2, t1);
    TranscriptUnique(prompt, chat, execute, c1, c2[..2 + 2 * t1], t1);
  }

  /** Roles alternate, starting with the user. */
  lemma RolesAlternate(prompt: string, chat: ChatModel, execute: Execute, conv: Conversation, tries: nat)
    requires Transcript(prompt, chat, execute, conv, tries)
    ensures forall k :: 0 <= k < |conv| ==> conv[k].role == (if k % 2 == 0 then User else Assistant)
  {
    forall k | 0 <= k < |conv|
      ensures conv[k].role == (if k % 2 == 0 then User else Assistant)
    {
      var i: nat := k / 2;
      if k % 2 == 1 {
        assert AssistantTurnOk(conv, i, chat);
      } else if i > 0 {
        assert FeedbackTurnOk(conv, i, execute);
      }
    }
  }

  /** The model is called once per attempt: at most eleven calls in all. */
  lemma ModelCallsBounded(prompt: string, chat: ChatModel, execute: Execute,
                          result: string, conv: Conversation, tries: nat)
    requires LoopOutcome(prompt, chat, execute, result, conv, tries)
    ensures |set k | 0 <= k < |conv| && conv[k].role == Assistant| == tries + 1 <= MaxTries + 1
  {
    RolesAlternate(prompt, chat, execute, conv, tries);
    var odd := set k | 0 <= k < |conv| && conv[k].role == Assistant;
    var calls := set i | 0 <= i <= tries :: 2 * i + 1;
    forall k | k in odd
      ensures k in calls
    {
      assert k == 2 * (k / 2) + 1;
    }
    forall k | k in calls
      ensures k in odd
    {
      var i :| 0 <= i <= tries && k == 2 * i + 1;
      assert k % 2 == 1;
    }
    assert odd == calls;
    CountOdd(tries);
  }

  /** There are n + 1 odd numbers below 2n + 2. */
  lemma {:induction false} CountOdd(n: nat)
    ensures |set i | 0 <= i <= n :: 2 * i + 1| == n + 1
  {
    var odd := set i | 0 <= i <= n :: 2 * i + 1;
    if n > 0 {
      CountOdd(n - 1);
      var fewer := set i | 0 <= i <= n - 1 :: 2 * i + 1;
      assert odd == fewer + {2 * n + 1};
      assert 2 * n + 1 !in fewer;
    } else {
      assert odd == {1} by {
        assert 1 in odd;
      }
    }
  }

  /** Scenario: the first reply runs cleanly, so no retry happens and its code is returned. */
  lemma FirstReplySucceeds(prompt: string, chat: ChatModel, execute: Execute,
                           result: string, conv: Conversation, tries: nat)
    requires ErrorOf(chat([Turn(User, prompt)]), execute) == ""
    requires LoopOutcome(prompt, chat, execute, result, conv, tries)
    ensures tries == 0 && |conv| == 2
    ensures result == execute(chat([Turn(User, prompt)])).0
  {
    assert AssistantTurnOk(conv, 0, chat);
    assert conv[..1] == [Turn(User, prompt)];
    assert Reply(conv, 0) == chat([Turn(User, prompt)]);
  }

  /** Scenario: the first reply fails and the second runs cleanly: one retry, four turns, the second code. */
  lemma SecondReplySucceeds(prompt: string, chat: ChatModel, execute: Execute,
                            result: string, conv: Conversation, tries: nat)
    requires var c0 := [Turn(User, prompt)];
             var c1 := c0 + [Turn(Assistant, chat(c0))];
             var c2 := c1 + [Turn(User, ErrorOf(chat(c0), execute))];
             ErrorOf(chat(c0), execute) != "" && ErrorOf(chat(c2), execute) == ""
    requires LoopOutcome(prompt, chat, execute, result, conv, tries)
    ensures tries == 1 && |conv| == 4
    ensures var c0 := [Turn(User, prompt)];
            var c2 := c0 + [Turn(Assistant, chat(c0))] + [Turn(User, ErrorOf(chat(c0), execute))];
            result == execute(chat(c2)).0
  {
    var c0 := [Turn(User, prompt)];
    var c1 := c0 + [Turn(Assistant, chat(c0))];
    var c2 := c1 + [Turn(User, ErrorOf(chat(c0), execute))];
    assert AssistantTurnOk(conv, 0, chat);
    assert conv[..1] == c0;
    assert conv[..2] == c1 by {
      assert conv[..2] == conv[..1] + [conv[1]];
    }
    assert tries != 0;
    assert FeedbackTurnOk(conv, 1, execute);
    assert conv[..3] == c2 by {
      assert conv[..3] == conv[..2] + [conv[2]];
    }
    assert AssistantTurnOk(conv, 1, chat);
    assert ErrorOf(Reply(conv, 1), execute) == "";
  }

  /** Scenario: every reply fails, so the loop gives up after exactly ten retries and twenty-two turns. */
  lemma EveryReplyFails(prompt: string, chat: ChatModel, execute: Execute,
                        result: string, conv: Conversation, tries: nat)
    requires forall c :: ErrorOf(chat(c), execute) != ""
    requires LoopOutcome(prompt, chat, execute, result, conv, tries)
    ensures tries == MaxTries && |conv| == 22 && result == GiveUp
  {
    assert AssistantTurnOk(conv, tries, chat);
  }
}
