# function_generator: the extractor, the executor and the repair loop

`main.py` asks a hosted chat model for a Python implementation of an Excel
function. It runs the code it gets back and feeds any error to the model again,
up to ten times. This project models the three deterministic parts of that
script in Dafny and proves what they promise:

- **Extractor** (`extractor.dfy`) models `extract_script`. It applies the
  pattern ```` ```(\s*(python)\s*\n)?([\s\S]*?)``` ```` with the
  leftmost-first backtracking semantics of Python's `re.search`, and returns
  group 3 or the fixed sentinel "I couldn't find a solution for this problem.".
  The matcher is given twice:
  - a scanning function (`FirstMatch`): the first fence, the greedy optional
    group, then the first fence after the group;
  - a declarative one: `IsMatch` describes every way the pattern can match,
    and `TriedBefore` gives the order in which a backtracking engine tries
    them.
  `FirstMatch` is proved to return the match tried first. `\s` is the
  character set Python's `str.isspace` accepts, which is what `re` uses for
  `\s` in `str` patterns.
- **Executor** (`executor.dfy`) models `run` and `execute_script`.
  - A program is a list of abstract top-level statements: a bare expression,
    an assignment to a list of names, or anything else.
  - `CaptureLast` is the rewrite of a trailing bare expression into
    `_result = <expression>`.
  - Execution runs in a fresh namespace and stops at the first exception.
  - Parsing, evaluating an expression and executing any other statement are
    supplied by an `Interpreter` value. The model does not contain Python
    itself.
- **RepairLoop** (`repair.dfy`) models `send_message` and `_generate_method`
  once the prompt is built.
  - The chat model is a function from the whole conversation to the reply.
  - `GenerateMethod` takes `execute_script` as a function from a reply to
    (code, error text).
  - `GenerateChecked` plugs in `Executor.ExecuteScript`.
  - The loop is proved to stop after at most ten retries. It leaves a
    conversation of alternating user and assistant turns, 2 + 2·tries long.
    Every retry was caused by a failure. The result is the last extracted code
    or the sentinel.
  - `OutcomeDetermined` shows that this postcondition pins down the result
    completely.
- `wrappers.dfy` holds the `Option` and `Result` types used by all three.

## Model

| member | source | states |
|---|---|---|
| Extractor.FindFence | main.py:73 | The first "```" at or after a position: a fence starts there and none starts between the position and it; None exactly when no fence starts after the position |
| Extractor.SpaceRun | main.py:73 | A greedy `\s*` consumes the longest run of whitespace: everything it consumes is whitespace and the next character is not |
| Extractor.LastNewline | main.py:73 | The last newline inside a range, or None when the range has none |
| Extractor.LeadIsWholeRun | main.py:73 | The group's leading `\s*` must take the whole whitespace run, because "python" begins with a letter |
| Extractor.NoFenceInsideTag | main.py:73 | A matched `\s*python\s*\n` group contains no backtick, so the group never hides or blocks a fence |
| Extractor.ScanTag | main.py:73 | The greedy group at a position: the result is a valid group match; every other group match has the same lead and a trail no longer than the result's; None exactly when the group cannot match |
| Extractor.GroupEndsAtLastNewline | main.py:73 | The group ends just past a newline, and the whitespace the body then starts with contains no newline: the trailing `\s*\n` stops at the last newline of the blank run |
| Extractor.FirstMatch | main.py:73-75 | The match `re.search` reports: it is a match, it is tried before every other match in backtracking order, and it is None exactly when no match exists |
| Extractor.FirstMatchShape | main.py:73-75 | The reported match opens at the first fence, uses the greedy group, and closes at the first fence after the group |
| Extractor.ExtractReportsFirstTried | main.py:73-79 | The extracted text is the body of the match that a backtracking engine tries first |
| Extractor.Extract | main.py:72-79 | Without a fence pair the result is the sentinel. Otherwise it is a slice of the reply that starts after the first fence, is followed directly by a fence, and contains no fence |
| Extractor.BodyIsFenceFree | main.py:73 | The lazy body contains no "```" |
| Extractor.MatchIffFencePair | main.py:73-77 | A match exists exactly when some fence is followed by a fence starting at least three characters later |
| Extractor.PairIffFirstFenceHasPartner | main.py:73-75 | A fence pair exists exactly when the first fence has a fence starting at least three characters after it |
| Extractor.NoPairGivesNotFound | main.py:75-77 | Without a fence pair nothing matches and the result is the sentinel |
| Extractor.FindFenceIs | main.py:73 | A fence at k with none between the start position and k is the fence the scan finds |
| Extractor.ClosingFenceIsFirst | main.py:73 | Fence-free code that does not end in a backtick, followed by a fence, is closed by exactly that fence |
| Extractor.ExtractGrouped | main.py:73-79 | When the reply opens with a fence and the group matches, the result runs from the group's end to the next fence |
| Extractor.ExtractTagged | main.py:73-79 | When the reply opens with a fence, "python" and one newline followed by a non-blank, the result starts right after that newline |
| Extractor.ExtractUntagged | main.py:73-79 | When the reply opens with a fence and the group cannot match, the result starts right after the fence |
| Extractor.TaggedRoundTrip | main.py:72-79 | Extracting from "```python\n" + code + "```" gives back the code. The code must be fence-free, start with a non-blank and not end in a backtick |
| Extractor.BareRoundTrip | main.py:72-79 | Extracting from "```" + code + "```" gives back the code. The code must be fence-free, not end in a backtick and not begin with the optional group |
| Extractor.NoTagAtPlainStart | main.py:73 | Code whose first character is neither whitespace nor 'p' cannot begin with the optional group |
| Extractor.TrailingBacktickIsLost | main.py:73-79 | A backtick that ends the code merges with the closing fence and is dropped from the result |
| Extractor.TagIsCaseSensitive | main.py:73 | "Python" is not the tag: with it the group is skipped and the word stays in the body |
| Extractor.TagWithoutNewlineIsBody | main.py:73 | Without a newline after "python" the group is skipped and the word stays in the body |
| Extractor.SentinelIsAmbiguous | main.py:76-79 | A reply without code and a reply whose code is the sentinel text give the same result |
| Executor.CaptureLast | main.py:92-99 | The rewrite keeps the statement count and every earlier statement. A trailing bare expression becomes an assignment of the same expression to `_result`. Any other program, including an empty one, is unchanged |
| Executor.CaptureLastIdempotent | main.py:93-99 | Rewriting twice is rewriting once |
| Executor.ExecAppend | main.py:102 | Executing two statement lists in sequence is executing the first and then the second from its final namespace, stopping at the first exception |
| Executor.ExecBody | main.py:101-102 | Statements run in order from the given namespace. The last statement runs in the namespace the earlier ones left, and only when none of them raised; an empty program leaves the namespace as it was |
| Executor.Lookup | main.py:103 | `ns.get("_result", None)`: the bound value exactly when `_result` is bound, otherwise None |
| Executor.Run | main.py:83-103 | A syntax error is raised as it is. With a trailing bare expression, `run` returns that expression's value in the namespace the earlier statements built, or the first exception raised on the way. Otherwise the program runs unchanged and `run` returns whatever `_result` then holds |
| Executor.CaptureLastExec | main.py:93-102 | Running the rewritten program runs the earlier statements as written, then evaluates the trailing expression and binds its value to `_result` |
| Executor.ExecKeepsCaptureAbsent | main.py:101-103 | Execution that starts without `_result`, and in which nothing binds it, ends without it |
| Executor.NothingCapturedWithoutTrailingExpr | main.py:101-103 | Without a trailing expression, and when nothing binds `_result`, a successful `run` returns None |
| Executor.ExplicitCaptureIsReturned | main.py:101-103 | A program that assigns `_result` itself gets that value back from `run` although it has no trailing expression |
| Executor.ExecuteScript | main.py:106-118 | The code returned is always the extractor's result. The error text is empty exactly when running that code raised nothing. Otherwise it is the fixed prefix, then the exception's text, then the traceback, so it starts with the prefix |
| RepairLoop.SendMessage | main.py:59-69 | The reply is the model's answer to the conversation so far. The conversation grows by exactly one assistant turn carrying it |
| RepairLoop.GenerateMethod | main.py:135-151 | At most MAX_TRIES retries; the conversation is 2 + 2·tries turns: the prompt, then each reply and the error that followed it. Every earlier attempt failed. A clean last attempt returns its code; a failed one returns the sentinel, and then tries == MAX_TRIES |
| RepairLoop.GenerateChecked | main.py:106-151 | With the real `execute_script`, the answer is the sentinel or code that runs without raising |
| RepairLoop.TranscriptExtend | main.py:142-146 | One iteration extends the conversation by the error turn and the model's answer, keeping every earlier turn and reply |
| RepairLoop.TranscriptPrefix | main.py:135-146 | The first 2j + 2 turns of a run are the conversation after attempt j |
| RepairLoop.TranscriptUnique | main.py:135-146 | The conversation after a given number of attempts is determined by the prompt, the model and `execute_script` |
| RepairLoop.SharedAttempt | main.py:135-146 | Two runs agree on every attempt both made |
| RepairLoop.EarlierStopContradicts | main.py:142-146 | The loop cannot stop at two different attempts: it stops at the first clean one |
| RepairLoop.OutcomeDetermined | main.py:138-151 | The retry count, the conversation and the result are determined by the inputs |
| RepairLoop.RolesAlternate | main.py:68 | Turns alternate between user and assistant, starting with the user's prompt |
| RepairLoop.ModelCallsBounded | main.py:138-146 | The model is called once per attempt, tries + 1 times, so at most eleven times |
| RepairLoop.FirstReplySucceeds | main.py:138-151 | If the first reply runs cleanly, no retry happens, the conversation has two turns, and its code is returned |
| RepairLoop.SecondReplySucceeds | main.py:138-151 | If only the first reply fails, there is one retry, the conversation has four turns, and the second reply's code is returned |
| RepairLoop.EveryReplyFails | main.py:142-151 | If every reply fails, the loop gives up after exactly ten retries and 22 turns |

## Left out

- `search_method` and `get_useragent` (main.py:29-56) are an HTTP request, HTML parsing and a random choice. `generate_method_from_url` only chains them into the loop.
- The OpenAI call inside `send_message` and the API key read at import are network and environment access. The model's reply is a parameter, a function of the conversation.
- The prompt text built from the method name, description and example is opaque: it is the `prompt` parameter.
- `print` diagnostics are not modelled.
- `ast.parse`, `compile`, `exec` and Python's evaluation are not modelled. They are the `parse`, `eval` and `exec` fields of `Executor.Interpreter`. Every other kind of statement goes to `exec` whole, and a function that raises returns `Failure`.
- `traceback.format_exc()` text is not modelled. Each `Fault` carries an opaque `traceback` string that `ExecuteScript` appends.
- Exceptions that derive from `BaseException` but not `Exception`, such as `SystemExit` or `KeyboardInterrupt`, escape `except Exception` in `execute_script`. The model treats every fault as caught.
- Executor.Lookup: a `_result` bound to Python's `None` returns the same value as an unbound `_result`. The model returns `Some(value)` for any binding and does not merge the two.
- Extractor.TaggedRoundTrip: the round trip needs code that does not end in a backtick. That last backtick joins the closing fence (see `TrailingBacktickIsLost`), so the property without this condition is false.
- Extractor.BareRoundTrip: needs the same extra condition as `TaggedRoundTrip`.
- Executor.Run: `run` returns `ns.get("_result")` (main.py:103), so a program that binds `_result` itself gets that value back even without a trailing expression (`ExplicitCaptureIsReturned`). That the result is None is proved only when nothing binds `_result` (`NothingCapturedWithoutTrailingExpr`).
- After one retry the message list holds four messages: the prompt, two replies and one error (`SecondReplySucceeds`).
- The loop's give-up string and the extractor's sentinel are the same text. `SentinelIsAmbiguous` shows the extractor side of the ambiguity. The loop does not tell a give-up apart from code that equals that text either.
- RepairLoop.GenerateMethod: the chat model and the interpreter are total functions. The model assumes every model call answers with a string and that parsing, evaluating and executing always finish. In the source an API fault in `send_message` propagates with no handler (main.py:60-67). A reply whose content is None makes `extract_script` raise outside the `try` (main.py:107). Generated code that never finishes hangs `exec` (main.py:102), since there is no timeout. `GenerateMethod`'s termination and its postcondition rest on these assumptions.
- RepairLoop.OutcomeDetermined: running the extracted code is modelled as a deterministic, pure function of the reply. The source runs the code in its own process with no sandbox (main.py:102), so imports, patched modules, files, randomness or the clock can make the same code fail on one attempt and pass on a later one. Under that abstraction `LoopOutcome` forces a repeated reply to fail again. `TranscriptUnique`, `OutcomeDetermined` and `GenerateChecked` (code that runs without raising, on a later run too) hold only under it.
