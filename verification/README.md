# Mushroom expert chatbot: turn router and simulated stream

This project models the local decision logic of the Mushroom Expert chatbot, a Gradio front end for a
hosted Gemini model. Two parts are modelled:

- **Turn router** (`llm_response`). It checks the question for safety terms, then greetings, then farewells.
  The checks are case-sensitive, unanchored substring tests. The first group that matches returns a canned
  reply. Otherwise one of three mycologist prompt templates is filled in and would be sent to the remote
  chat session: no image; image with a question; image without a question.
- **Stream renderer** (`stream_response`). It replays the complete reply one character at a time. Each frame
  is the unchanged history plus `(question, text typed so far)`. At the end the full exchange is appended
  to the history once.

Modules:

- `Wrappers` (`wrappers.dfy`): `Option` and `Result`.
- `Text` (`text.dfy`): the predicate `Contains(s, sub)` for Python's `sub in s`. Also the scanning method
  `Find`, and lemmas about occurrences.
- `Router` (`router.dfy`): `Outcome = Canned(msg) | Send(prompt)` and the total function
  `Route(question, hasImage, mushroomInfo)`. Also the intent filter restated as an ordered rule table
  (`IntentRules`, `FirstReply`), and lemmas for precedence, case sensitivity and template contents.
- `Stream` (`stream.dfy`): `Replay` and `Render` (the frames and the final history). Also a whole turn, as
  written (`TurnAsWritten`) and as corrected (`Turn`).

Abstractions:

- The text of the image description returned by `analyze_mushroom_image` is the opaque string `mushroomInfo`.
  On failure that function returns `{}`, which the f-string formats as the text `{}`. Either way the router
  sees only a string.
- The remote chat session is the parameter `remote: string -> Option<string>`. It maps a prompt to the
  `.text` of the reply, or to `None` when `send_message` raises or the reply has no text. Such a failure
  propagates: no frame is shown and nothing is appended to the history.
- "The image describer is never called" is stated as independence: unless `AnalysesImage(question, hasImage)`
  holds, `Route` gives the same outcome for every description.

## Model

| member | source | states |
|---|---|---|
| Text.Contains | MushroomExpert.py:72-86 | Python's `sub in s`: `sub` occurs at some index of `s`, matching exact characters with no anchoring. An occurrence needs `sub` no longer than `s`; the empty string and every prefix occur. |
| Text.Find | MushroomExpert.py:72-86 | Trying each start index decides the test: it returns true exactly when `sub` occurs somewhere in `s`. |
| Router.Route | MushroomExpert.py:67-103 | The outcome is canned exactly when a safety, greeting or farewell term occurs, and then it is one of the three fixed messages. A sent prompt starts with the no-image lead and contains the question, or starts with the image lead and contains the description. |
| Router.SafetyFirst | MushroomExpert.py:72-78 | "Amanita Muscaria" or "red mushroom" anywhere gives the fixed warning, whatever other keywords appear and whether or not there is an image. |
| Router.GreetingBeforeFarewell | MushroomExpert.py:80-82 | With no safety term, "hello" or "hey" gives the fixed greeting, even when "bye" also occurs. |
| Router.GoodbyeSubsumed | MushroomExpert.py:84 | The farewell test holds exactly when "bye" occurs, because "goodbye" contains "bye". |
| Router.FarewellLast | MushroomExpert.py:84-86 | With no safety or greeting term, the outcome is the fixed farewell exactly when "bye" occurs. |
| Router.CaseSensitiveUnanchored | MushroomExpert.py:72-92 | "they" is a greeting and "Goodbye" a farewell, but "Hello" and "Bye" match nothing and become no-image prompts. |
| Router.DirectPrompt | MushroomExpert.py:88-92 | No image and no keyword: the prompt is the fixed prefix, the question verbatim right after it, then the fixed suffix. |
| Router.ImageQuestionPrompt | MushroomExpert.py:93-99 | Image and a non-empty question: the prompt is exactly the lead, the description, the question clause, the question, then the fixed closing. So the description comes before the question. |
| Router.ImageSummaryPrompt | MushroomExpert.py:100-103 | Image and an empty question: the description follows the lead, and the prompt ends with the "detailed summary" request. |
| Router.DescriptionUsedOnlyWhenAnalysed | MushroomExpert.py:72-103 | Unless the router reaches the image branch, the outcome is the same for every description. When it does reach that branch, a prompt is sent and it contains the description. |
| Router.FirstReply | MushroomExpert.py:72-86 | An ordered rule table yields a reply exactly when some rule's keyword occurs, and the reply belongs to one of the rules. |
| Router.FirstRuleWins | MushroomExpert.py:72-86 | The first rule that fires decides the reply, whatever later rules would say. |
| Router.RouteIsRuleTable | MushroomExpert.py:72-86 | The router's canned branch equals the three-rule table evaluated in order: canned exactly when the table answers, and with the same message. |
| Stream.Replay | MushroomExpert.py:112-118 | Replaying a text emits one frame per character. Frame k is the history plus the question paired with the text typed so far and the first k+1 new characters. |
| Stream.Render | MushroomExpert.py:112-121 | A reply of length n yields exactly n frames. Frame k (1-based) is the history plus (question, first k characters of the reply). |
| Stream.RenderKeepsHistory | MushroomExpert.py:116-121 | Every frame keeps the history as its prefix and adds one pair. Each frame's answer extends the previous one by the next character. The final history is the old one plus (question, reply), and it equals the last frame when the reply is non-empty. An empty reply shows no frame, yet (question, "") is still recorded. |
| Stream.RenderAbc | MushroomExpert.py:116-121 | "abc" is shown as "a", "ab", "abc", and then ("abc") is recorded once. |
| Stream.ReplyTextAsWritten | MushroomExpert.py:108-109 | Reading `.text` fails on every canned reply. For a sent prompt it succeeds exactly when the remote call returns text, and then it yields that text. |
| Stream.TurnAsWritten | MushroomExpert.py:106-121 | The turn as written. A keyword question fails with the missing-`.text` error. A sent prompt fails exactly when the remote call fails; otherwise the remote reply is rendered and recorded. |
| Stream.Turn | MushroomExpert.py:106-121 | The corrected turn. A keyword question renders and records its canned message. A sent prompt behaves as in the turn as written. |
| Stream.CannedReplyFailsAsWritten | MushroomExpert.py:108-109 | As written, every keyword question ends in the missing-`.text` error before any frame is shown. |
| Stream.HelloFailsAsWritten | MushroomExpert.py:108-109 | As written, the question "hello" ends in the missing-`.text` error, whether or not there is an image. |
| Stream.HelloRendered | MushroomExpert.py:106-121 | Corrected, "hello" shows the greeting's first k characters in frame k, one frame per character, and records (hello, greeting) once. |
| Stream.CannedReplyRendered | MushroomExpert.py:106-121 | Corrected turn for a keyword question: the canned message is replayed and recorded, and the result does not depend on the remote session. |
| Stream.SentReplyAgrees | MushroomExpert.py:88-121 | When a prompt is sent, the written and corrected turns agree, including when the remote call fails. When it succeeds, the history gains (question, remote reply to the routed prompt). |

## Left out

- Gemini calls (`genai.configure`, `start_chat`, `send_message`, `generate_content`): these are remote services. Their results are the parameters `remote` and `mushroomInfo`.
- `analyze_mushroom_image` internals: image decoding, safety settings, temperature 0.8, and the exception handler that returns `{}`. Only its text result is modelled.
- The server-side conversation context of the module-level chat session: it is remote state.
- `image_to_base64` and `query_message`: file I/O and a library base64 call, and nothing calls them.
- The 10 ms `time.sleep` between frames: it is timing, not behaviour.
- Gradio layout and button wiring. The Clear handler resets only the chat view and the text box. It resets neither the remote chat session nor the `history` state.
- Debug `print` calls.
- The unused `history` argument of `llm_response`: it is only printed, so `Route` does not take it.
- Stream.Render: it does not model when the final append happens relative to the frames. In the source the append follows the last frame and is never itself shown.

## Findings

| source | as written | input that shows it | evidently intended | confidence | as-written member | corrected member |
|---|---|---|---|---|---|---|
| MushroomExpert.py:78-86,108-109 | The canned branches return a plain string, but `stream_response` reads `.text` on the router's result. A keyword question therefore raises an attribute error before any frame. | question "hello", any image | The canned message is streamed and recorded like a remote reply. | high; not executed | Stream.HelloFailsAsWritten | Stream.HelloRendered |
