# KeypirinWA in Dafny

KeypirinWA is a Keypirinha launcher plugin that sends the text typed after
the `:W` keyword to the WolframAlpha API. It shows the answers as launcher
suggestions. This project models the plugin's logic and proves what it
does:

- **Input routing** (`on_suggest` with `_thing`, module `Plugin`). It
  decides whether the typed text is ignored, answered with the "no API key"
  message, echoed as a preview item, or sent to the provider. The text is
  sent once it ends in a backslash, which is then removed.
- **Fragment normalisation** (module `Strings`). Each plaintext leaf of a
  pod is stripped. Every literal backslash-`n` pair becomes `"; "`, and
  every whitespace run becomes one space. Python's `str.strip`,
  `str.replace` and `re.sub(r'\s+', ' ', …)` are written out over `seq<char>`.
  `IsSpace` lists the characters Python's `str.isspace` accepts.
- **Response formatting** (`_askWA` after the HTTP call, module `Answers`).
  It maps the status code and the parsed pods to one of four results:
  - the error message;
  - the lone "No results." item;
  - the answer items followed by the link item;
  - a crash, when a `plaintext` element of a primary, non-`Input` pod has no text.

  The source's two nested loops are kept. `Answers.CollectAnswers` is the
  loop over the pods, `Answers.CollectStep` is one pass of it,
  `Answers.CollectPod` is that pass up to the answer line, and
  `Answers.CollectFragments` is the inner loop over the leaves. Each is tied
  to a functional specification (`AnswerLines`, `PodLines`, `Fragments`).
  `Answers.AskWA` is tied to `Answers.FormatReply`, and the lemmas about
  these functions state the properties.

The plugin object is `Plugin.WA`, a class whose one mutable field is the
API key. The HTTP request and the XML parsing are the `provider` parameter
of `OnSuggest`: a function from the request to the status code and the
parsed pods. The method also returns the request it made, if any.
`urllib.parse.quote_plus` is the parameter `quote`. The launcher's item
chain is reduced to its first item's category and target.

Behaviours of the code that the model keeps as written:

- Line 61 cuts one character of the two-character keyword `:W`. A query
  typed after the prefix therefore reaches `_thing` with the `W` still in
  front, and the request carries it too (`Plugin.KeywordQueryKeepsW`). For
  the same reason the emptiness check at line 62 can never fire: the text
  always starts with `W` (`OnSuggest` asserts this).
- With an OK status but no pod yielding an answer, the result is the lone
  "No results." item, without the link item (lines 147-154). The link item
  is appended only after at least one answer.
- The `if not ret` fallback at lines 164-171 is unreachable. `ret` is set
  whenever `pod_texts` is, and the function has already returned when
  `pod_texts` is empty. No run reads `ret` unset, so `AskWA` ends with an
  assertion in place of that branch.
- Whitespace collapsing alone is idempotent (`Strings.CollapseIdempotent`).
  The whole normalisation is not. A fragment ending in backslash-`n`
  normalises to text ending in `"; "`, and a second pass strips that space
  (`Strings.NormalizeNotIdempotent`).

## Model

| member | source | states |
|---|---|---|
| Strings.StripLeft | KeypirinWA.py:132 | the result is a suffix of the input and does not start with whitespace |
| Strings.StripLeftCut | KeypirinWA.py:132 | what `lstrip` cuts off is all whitespace |
| Strings.StripRight | KeypirinWA.py:132 | the result is a prefix of the input and does not end with whitespace |
| Strings.StripRightCut | KeypirinWA.py:132 | what `rstrip` cuts off is all whitespace |
| Strings.Strip | KeypirinWA.py:132 | `strip()` never lengthens the text |
| Strings.StripEnds | KeypirinWA.py:132 | a non-empty stripped text has whitespace at neither end; an input with no leading whitespace keeps its first character |
| Strings.StripEmpty | KeypirinWA.py:132 | `strip()` leaves nothing exactly when the input is all whitespace |
| Strings.StripIdempotent | KeypirinWA.py:132 | stripping a stripped string changes nothing |
| Strings.ReplaceEscapes | KeypirinWA.py:132 | `replace('\\n', '; ')` keeps the length, since the pair and its replacement both have two characters |
| Strings.ReplaceRewrites | KeypirinWA.py:132 | every backslash-`n` pair of the input is `"; "` at the same place in the output |
| Strings.ReplaceKeeps | KeypirinWA.py:132 | every character that is not part of a backslash-`n` pair is kept at its place |
| Strings.ReplaceNoEscape | KeypirinWA.py:132 | a text without a backslash-`n` pair is left unchanged |
| Strings.ReplaceLeavesNoEscape | KeypirinWA.py:132 | after the replacement no backslash-`n` pair is left |
| Strings.Collapse | KeypirinWA.py:133 | `re.sub(r'\s+', ' ', …)` is empty exactly when its input is, and never lengthens the text |
| Strings.CollapseHead | KeypirinWA.py:133 | the result starts with a plain space where the input starts with whitespace, else with the input's first character |
| Strings.CollapseRun | KeypirinWA.py:133 | a whitespace run between two texts that do not border it with whitespace becomes exactly one plain space, and the texts on either side collapse on their own |
| Strings.CollapseAppend | KeypirinWA.py:133 | no whitespace run crosses the end of a text that ends in a non-whitespace character, so the two parts collapse separately |
| Strings.StripLeftConcat | KeypirinWA.py:132 | `lstrip` of a non-empty text ending in a non-whitespace character depends only on that text, not on what follows it |
| Strings.CollapseSpacing | KeypirinWA.py:133 | the result has no two adjacent whitespace characters and no whitespace other than a plain space |
| Strings.CollapseFixes | KeypirinWA.py:133 | a text with no whitespace run and only plain spaces is left unchanged |
| Strings.CollapseIdempotent | KeypirinWA.py:133 | collapsing twice equals collapsing once |
| Strings.CollapseKeepsVisible | KeypirinWA.py:133 | the non-whitespace characters survive unchanged and in order |
| Strings.CollapseKeepsNoEscape | KeypirinWA.py:132-133 | collapsing does not create a backslash-`n` pair |
| Strings.Normalize | KeypirinWA.py:131-133 | defines one leaf's normalisation as strip, then the backslash-`n` replacement, then the whitespace collapse; its properties are stated by `NormalizeWellFormed`, `NormalizePadded`, `NormalizeEscaped`, `NormalizeTrailingEscape` and `NormalizeNotIdempotent` |
| Strings.NormalizeWellFormed | KeypirinWA.py:131-135 | a normalised fragment is empty exactly when the leaf is all whitespace; a non-empty one does not start with whitespace and has no whitespace run and no backslash-`n` pair |
| Strings.StripLeftSpaces | KeypirinWA.py:132 | `lstrip` removes exactly a leading run of whitespace in front of a text that starts with no whitespace |
| Strings.StripRightSpaces | KeypirinWA.py:132 | `rstrip` removes exactly a trailing run of whitespace after a text that ends with no whitespace |
| Strings.NormalizePadded | KeypirinWA.py:132-133 | a non-empty word with no whitespace and no backslash-`n` pair, padded with whitespace on both sides, normalises to the word |
| Strings.NormalizeEscaped | KeypirinWA.py:132-133 | two such words joined by a backslash-`n` normalise to the words joined by `"; "` |
| Strings.NormalizeTrailingEscape | KeypirinWA.py:132-133 | such a word followed by a backslash-`n` normalises to the word followed by `"; "`, trailing space included |
| Strings.NormalizeNotIdempotent | KeypirinWA.py:132-133 | for such a word followed by a backslash-`n`, a second normalisation strips the trailing space and so differs from the first |
| Strings.Join | KeypirinWA.py:138 | `', '.join(results)` is empty for no pieces, starts with the first piece and ends with the last |
| Strings.Decimal | KeypirinWA.py:118 | `str(code)` is a non-empty digit string without a leading zero |
| Strings.DecimalRoundTrip | KeypirinWA.py:118 | the status code can be read back from its digits |
| Answers.AnswerItem | KeypirinWA.py:139-145 | defines the answer item of a line: an expression item with caption `"= "` + the line and the line as target; `AnswerItemsAt` and `FormatReply` state this of every answer shown |
| Answers.AnswerItems | KeypirinWA.py:139-145 | one answer item per line |
| Answers.AnswerItemsAt | KeypirinWA.py:139-145 | the item at each place is the answer item of the line at the same place: caption `"= "` + line, target the line |
| Answers.AnswerItemsAppend | KeypirinWA.py:139-145 | appending a line appends its answer item |
| Answers.Fragments | KeypirinWA.py:131-135 | the leaves yield a crash exactly when one of them has no text; otherwise at most one fragment per leaf |
| Answers.FragmentsWellFormed | KeypirinWA.py:131-135 | every fragment kept is non-empty, starts with no whitespace, and has no whitespace run and no backslash-`n` pair |
| Answers.CollectFragments | KeypirinWA.py:130-135 | the inner loop computes `Fragments` of the pod's leaves, a crash included |
| Answers.CollectPod | KeypirinWA.py:126-138 | one pass of the outer loop yields `PodLines` of the pod: nothing for a skipped pod or one without fragments, a crash, or exactly one non-empty line |
| Answers.CollectStep | KeypirinWA.py:126-145 | one pass of the outer loop crashes exactly when the pod does, and then the whole reply crashes; otherwise the lines so far grow by the pod's line, if any, and the items, `pod_texts` and `ret` still match them |
| Answers.CollectAnswers | KeypirinWA.py:123-145 | the outer loop crashes exactly when `AnswerLines` of the pods is a crash; otherwise it builds the answer items of those lines, `pod_texts` is empty when there is no line and is the last, non-empty line otherwise, and then `ret` has been set |
| Answers.FormatReply | KeypirinWA.py:117-173 | a non-OK status gives a message; a crash happens exactly when the status is OK and `AnswerLines` crashes, that is when some contributing leaf has no text (`CrashReply`); a single item is always "No results."; a listing has at least one answer and ends with the link item for the sent text; every earlier item is an answer whose caption is `"= "` + its target |
| Answers.AskWA | KeypirinWA.py:117-173 | the status check, the loops and the final returns compute `FormatReply` of the text and the reply |
| Answers.AnswersCrash | KeypirinWA.py:131-132 | one leaf without text in a contributing pod crashes the whole reply |
| Answers.AnswersCrashOnlyIf | KeypirinWA.py:131-132 | conversely, a crash of the reply comes from some primary, non-`Input` pod with a leaf without text |
| Answers.CrashReply | KeypirinWA.py:117-132 | with an OK status the reply crashes exactly when some primary, non-`Input` pod has a leaf without text |
| Answers.PodLines | KeypirinWA.py:126-138 | defines what one pod adds to the answer lines: nothing, one line, or a crash; `PodLinesShape` states its shape |
| Answers.AnswerLines | KeypirinWA.py:125-145 | defines the answer lines of the pods, in pod order; `AnswerLinesLength`, `AnswersAppend`, `AnswersCrash`, `AnswersCrashOnlyIf` and `AnswersEmpty` state its properties |
| Answers.AnswerLinesLength | KeypirinWA.py:125-145 | there are never more answer lines than pods |
| Answers.AnswersAppend | KeypirinWA.py:125-145 | the answers of two runs of pods are the first run's answers followed by the second's |
| Answers.AnswersStep | KeypirinWA.py:125-145 | one more pod appends that pod's answer line, if any |
| Answers.AnswersNextPod | KeypirinWA.py:125-145 | after the answers of the first pods, a crash in the next pod crashes the whole reply, and otherwise its lines are appended |
| Answers.PodLinesShape | KeypirinWA.py:125-145 | a pod crashes exactly when it contributes and has a leaf without text; it yields at most one line; a pod that is not primary, or has id `Input`, yields none; a line is the title, `": "`, and the fragments joined by `", "` |
| Answers.ContributingPods | KeypirinWA.py:125-128 | a pod is kept exactly when it is one of the given pods, primary, and its id is not `Input`; never more pods than given |
| Answers.ContributingPodsAppend | KeypirinWA.py:125-128 | the filter keeps pod order: filtering two runs of pods is filtering each and joining the results |
| Answers.AnswersOnlyContributing | KeypirinWA.py:125-128 | the answers depend only on the primary pods whose id is not `Input` |
| Answers.AnswersEmpty | KeypirinWA.py:136-147 | there is no answer exactly when every pod yields no line |
| Answers.ErrorReply | KeypirinWA.py:117-118 | a non-OK status gives the message `"Error getting query: "` followed by the status code's digits, from which the code reads back |
| Answers.NoResultsReply | KeypirinWA.py:147-162 | with an OK status the result is the lone "No results." item exactly when no pod yields a line; otherwise the listing is the answer items followed by the link item |
| Answers.LinkItem | KeypirinWA.py:156-162 | defines the link item: a URL item whose caption is the sent text and whose target is the query URL with the quoted text; `OneLinkItem` and `FormatReply` state where it appears |
| Answers.OneLinkItem | KeypirinWA.py:156-162 | a listing holds one URL item, in last place |
| Answers.FragmentsPair | KeypirinWA.py:131-135 | two leaves with text contribute their normalised texts in leaf order, a blank one contributing nothing |
| Answers.PodLinesPair | KeypirinWA.py:136-138 | a contributing pod whose two leaves normalise to non-empty `x` and `y` yields the one line `title: x, y` |
| Answers.PaddedAndEscapedLeaves | KeypirinWA.py:130-138 | a pod whose leaves are a padded word and two words around a backslash-`n` (as `"  42  "` and `foo\nbar`) yields `title: 42, foo; bar` |
| Plugin.QueryText | KeypirinWA.py:59-61 | with the `:W` prefix the text handed on is non-empty and starts with `W`; without it the input is handed on unchanged |
| Plugin.PreviewItem | KeypirinWA.py:101-107 | defines the preview item: an expression item with caption `"= "` + the text and the text as target; `Thing` states when it is shown |
| Plugin.Thing | KeypirinWA.py:93-107 | no key gives the message; with a key, a text not ending in a backslash gives the preview item (caption `"= "` + text, target the text), and otherwise asks for the text minus that backslash |
| Plugin.Wrap | KeypirinWA.py:71-72 | a list of items is passed on item by item, in order; a bare string becomes the one suggestion showing that string, and a bare item the one suggestion holding that item |
| Plugin.Deliver | KeypirinWA.py:70-74 | the call raises exactly when formatting crashed (`Crashed`); otherwise the wrapped value is handed to `set_suggestions`, never dropped |
| Plugin.ThingSendsMarked | KeypirinWA.py:97-99 | with a key, any text followed by a backslash is sent as exactly that text |
| Plugin.KeywordQueryKeepsW | KeypirinWA.py:59-61 | with the `:W` prefix every request sent starts with `W` |
| Plugin.ListingShowsLinkLast | KeypirinWA.py:156-173 | answers are shown with the link item last, and it is the only URL suggestion |
| Plugin.ErrorShowsMessage | KeypirinWA.py:117-118 | a non-OK status shows one bare message naming the status code, with no link item |
| Plugin.WA.constructor | KeypirinWA.py:27-30 | the key starts as the default empty key |
| Plugin.WA.ReadConfig | KeypirinWA.py:88-91 | the key becomes the `apiKey` setting of section `main` if there is one, else stays as it was |
| Plugin.WA.OnSuggest | KeypirinWA.py:50-74 | nothing is shown exactly when the input is empty, the chain head is not the `:W` keyword item, or the chain is empty and the input lacks the prefix; no key means no request and only the message; a request is made exactly when the text handed on ends in a backslash, with that backslash removed and the configured key, and what is shown is then the formatted reply; otherwise the preview item is shown |

## Left out

- The Keypirinha host API is not modelled: `create_item`, `set_catalog`, `set_suggestions`, `load_settings`, `Match`/`Sort` flags, and the args and hit hints of items. Items are a plain datatype with category, caption, short description and target.
- `on_start`, `on_catalog`, `on_execute` and `on_events` are host glue and are not modelled. `on_catalog` registers the `:W` keyword item (lines 41-48). `on_execute` copies an expression item's target or opens a URL item's target (lines 76-82); when `item` is `None` it still calls `item.category()` at line 79, which would raise. `on_start` and `on_events` call `_read_config`, which is modelled as `ReadConfig`.
- `requests.get` is network I/O. It is the `provider` parameter, which stands for the status code and the parsed pods of the reply.
- `provider` is a total function, so the model never produces the exceptions the real calls can raise: `requests.get` on a connection error or timeout, and `etree.ElementTree.fromstring` on malformed XML. Either would end like `Raised`, but no modelled input leads there.
- XML parsing with `etree.ElementTree.fromstring` and the XPath `findall` queries are left out. Pods arrive already parsed, with their `plaintext` leaves in document order. A leaf whose text is `None` makes `.strip()` raise, and that is modelled as the `Crashed` result, shown as `Raised`.
- `urllib.parse.quote_plus` is the parameter `quote`. Its percent-encoding is not modelled.
- `str.translate("")` on the "no API key" message is not modelled. Python leaves every character alone because the empty table raises `LookupError` on lookup.
- The `eval_requested` flag is set but never read, and neither is the class attribute `manual = DEFAULT_MANUAL` (lines 28 and 33), so neither is modelled. The unused imports and the `simpleeval` library are not modelled either.
- A missing `title` or `id` attribute would raise `KeyError`. Pods always carry both here.
