# Front-end trail: a verified model of the page script

The page is a mock code-and-study search front end. Its script (`main.js`)
does five things, all modelled here:

- a **mock search** that trims the query, reads the search mode from a radio
  group (or from legacy mode buttons), and renders three template results
  around a topic taken from the query's first three space-separated segments,
  or an empty-query notice;
- **arrow-key mode cycling**: with focus in the query input or the import
  area, Left/Right moves the checked radio one place, wrapping at both ends;
- a **collapsible sidebar** whose state is mirrored on the layout, the sidebar,
  the collapse button, a best-effort `localStorage` flag and a lazily created
  reveal tab; the page always loads expanded and resets a stored "collapsed"
  flag;
- an **import pane** whose layout widens while it has focus or text, and an
  Import button that prepends a card holding the HTML-escaped code, with a
  Remove button that restores the layout once no result card is left;
- the **HTML escaper** for imported code (`&`, then `<`, then `>`).

Files (one module each):

- `wrappers.dfy` — `Option`.
- `strings.dfy` — the JavaScript string built-ins used: `trim`, `split` on a
  one-character separator, `join`, `includes`, with their properties.
- `html_escape.dfy` — `escapeHtml`, a per-character reference encoding, and a
  decoder used to state the round trip.
- `mock_search.dfy` — `fakeSearchResults` and the topic it embeds.
- `mode_selector.dfy` — `getActiveMode`, the wrap-around index arithmetic and
  the radio group update.
- `page.dfy` — the page state as one class `Page.Page` whose methods are the
  event handlers; its `Valid()` invariant says the two import layout markers
  are exclusive, everything the sidebar drives agrees with the layout's
  `collapsed` marker (including the stored flag when storage is usable and
  exactly one reveal tab), and at most one radio is checked.

The topic is cut at the first three segments split on the space character
only (`split(' ')`), not on any whitespace; a tab or a newline inside the
query stays inside a segment. The model follows the code here.

## Model

| member | source | states |
|---|---|---|
| Strings.TrimStart | main.js:75 | the result is never longer than the input |
| Strings.Trim | main.js:75 | `trim` never lengthens its input; TrimIsCore, TrimEmptyIff and TrimIdempotent state what it keeps |
| Strings.TrimStartSpec | main.js:75 | trimming the front keeps the longest suffix that does not start with whitespace and drops only whitespace |
| Strings.TrimEndSpec | main.js:75 | trimming the end keeps the longest prefix that does not end with whitespace and drops only whitespace |
| Strings.TrimIsCore | main.js:75 | `trim` returns the slice of the input between its first and last non-whitespace characters; everything outside is whitespace |
| Strings.TrimEmptyIff | main.js:75 | `trim` gives the empty string exactly when the input is all whitespace |
| Strings.TrimIdempotent | main.js:75 | trimming twice is trimming once |
| Strings.Split | main.js:61 | `split(' ')` yields at least one part and no part contains the separator |
| Strings.SplitLength | main.js:61 | `split` yields one more part than there are separators |
| Strings.JoinSplit | main.js:61 | joining the split parts with the same separator gives the string back |
| Strings.JoinAppend | main.js:61 | joining two non-empty lists puts exactly one separator between their joins |
| Strings.Take | main.js:61 | `slice(0, n)` is a prefix of the list of length `min(n, length)` |
| Strings.Join | main.js:61 | the joined string starts with the first part and is at least as long as the number of gaps between parts |
| Strings.JoinCount | main.js:61 | joining separator-free parts puts exactly one separator between neighbours and no other |
| Strings.ContainsIffOccurs | main.js:47-48 | `includes` holds exactly when the substring occurs at some position |
| Strings.Contains | main.js:47-48 | `includes` holds when the text starts with the substring and never for a substring longer than the text |
| HtmlEscape.ReplaceAll | main.js:188 | a global replacement leaves no occurrence of the replaced character when the replacement does not contain it |
| HtmlEscape.EscapeHtml | main.js:187-189 | the escaped text contains no `<` and no `>` |
| HtmlEscape.EscapeHtmlIsPerCharacter | main.js:187-189 | the three global replacements, `&` first, encode each character exactly once: `&`, `<`, `>` become their named references, nothing is escaped twice |
| HtmlEscape.UnescapeEscapeHtml | main.js:187-189 | decoding the escaped text gives the original back |
| HtmlEscape.EscapeHtmlInjective | main.js:187-189 | distinct inputs escape to distinct outputs |
| HtmlEscape.EscapeHtmlIsSafe | main.js:187-189 | the escaped text has no `<` or `>`, and every `&` in it opens `&amp;`, `&lt;` or `&gt;` |
| HtmlEscape.EscapeHtmlKeepsPlainText | main.js:187-189 | text without `&`, `<`, `>` (quotes included) is unchanged |
| HtmlEscape.EscapeHtmlLength | main.js:187-189 | the output is at least as long as the input and at most five times as long |
| HtmlEscape.EscapeHtmlAppend | main.js:187-189 | escaping distributes over concatenation |
| HtmlEscape.EscapeHtmlElement | main.js:187-189 | an element `<n>t</n>` around plain text is rewritten to `&lt;n&gt;t&lt;/n&gt;` |
| HtmlEscape.EscapeHtmlBoldExample | main.js:187-189 | `<b>hi</b>` escapes to `&lt;b&gt;hi&lt;/b&gt;` |
| MockSearch.FakeSearchResults | main.js:58-72 | no items for the empty query, otherwise exactly three, every title starting with the topic |
| MockSearch.ResultsFollowMode | main.js:62-70 | for a non-empty query the items are the code templates exactly when the mode is `"code"` and the study templates for every other mode |
| MockSearch.Topic | main.js:61 | the topic is always a prefix of the query |
| MockSearch.FirstSegments | main.js:61 | the first three space-separated segments joined again are the whole query when it has at most three segments, otherwise the query cut before its third space, and always a prefix of it |
| MockSearch.TopicOfQuery | main.js:61 | the topic is the query itself when it has at most three segments, otherwise the query cut before its third space |
| MockSearch.TopicHasAtMostTwoSpaces | main.js:61 | the topic contains at most two spaces |
| MockSearch.SearchOfTrimmedQuery | main.js:75-91 | a whitespace-only query yields no items, any other query three |
| ModeSelector.FindChecked | main.js:32 | `findIndex` returns -1 exactly when no radio is checked, else the index of the first checked one |
| ModeSelector.FindActive | main.js:54 | the first legacy button marked active, or -1 exactly when none is |
| ModeSelector.GetActiveMode | main.js:42-56 | with radios the mode is `"code"` or `"study"`, and `"code"` when no radio is checked; without radios it is `"code"` when no button is active |
| ModeSelector.ModeFromRadios | main.js:44-51 | with radios the mode is `"code"` or `"study"`; `"study"` exactly when the first checked id contains "gold" and not "silver"; `"code"` when none is checked |
| ModeSelector.ModeFromButtons | main.js:53-55 | without radios the mode is the first active button's, or `"code"` when none is active |
| ModeSelector.NextIndex | main.js:35 | the next index stays inside the group |
| ModeSelector.NextIndexWraps | main.js:35 | Right moves one on and wraps from the last radio to the first; Left moves one back and wraps from the first to the last |
| ModeSelector.NextIndexInverse | main.js:35 | Right then Left (or Left then Right) returns to the same index |
| ModeSelector.PressesMoveBy | main.js:35 | `k` presses of one arrow, up to a full round, move exactly `k` places with at most one wrap |
| ModeSelector.FullCycle | main.js:35 | as many presses as radios return to the start |
| ModeSelector.CheckOnly | main.js:36 | checking a radio leaves it the only checked one of the group and keeps every id |
| ModeSelector.CycleRadios | main.js:32-36 | with no radio checked the group is left exactly as it was; otherwise the neighbour of the checked radio becomes the only checked one |
| ModeSelector.CycleRadiosInverse | main.js:32-36 | one arrow then the opposite one restores the radio group exactly |
| ModeSelector.CycleRadiosKeepsGroup | main.js:32-36 | cycling keeps the ids and at most one checked radio, and a group with a checked radio keeps one |
| Page.CountResultCards | main.js:278 | the count of result cards is zero exactly when every child is the empty-query notice |
| Page.Cards | main.js:96-101 | one result card per item, in order, carrying the item's title and description |
| Page.Rendered | main.js:90-101 | no items render as the empty-query notice alone; otherwise one child per item and no notice |
| Page.SearchRendering | main.js:90-101 | a blank query renders only the notice and no result card; any other renders three result cards whose titles start with the topic |
| Page.ArrowHandlersExclusive | main.js:160-171 | the radio handler and the sidebar handler never both act on one key; the sidebar one acts exactly outside text fields, Left collapsing |
| Page.CountRemovesCard | main.js:276-278 | removing a card lowers the result-card count by exactly one |
| Page.Page.Load | main.js:176-184 | after load the sidebar is expanded and in sync, one reveal tab exists and is hidden, and a usable store holds "0" whatever was saved |
| Page.Page.EnsureSidebarTab | main.js:144-157 | the tab is created once, hidden, and an existing tab is reused unchanged; nothing but the tab changes |
| Page.Page.ApplySidebarState | main.js:117-134 | the layout, sidebar, button glyph, aria-expanded, stored flag and tab all follow the new state; an unusable store keeps its value; import pane, results and radios are outside its frame |
| Page.Page.ToggleSidebar | main.js:136-141 | the collapse button flips the state and keeps the page valid; an unusable store keeps its value; import pane, results and radios are unchanged |
| Page.Page.RevealSidebar | main.js:154 | the reveal tab always expands the sidebar and hides itself; an unusable store keeps its value; import pane, results and radios are unchanged |
| Page.Page.SetImportActive | main.js:220-226 | the import-active marker follows the argument; activating clears the import-collapsed marker |
| Page.Page.FocusImportArea | main.js:230 | focus widens the import pane; the sidebar, results, their visibility, the texts and the radios are unchanged |
| Page.Page.EditImportArea | main.js:233-236 | after an edit the pane is wide exactly when the trimmed text is non-empty or the area has focus; sidebar, results, their visibility, status and radios are unchanged |
| Page.Page.BlurImportArea | main.js:239-242 | on blur the pane stays wide exactly when the trimmed text is non-empty; sidebar, results, their visibility, texts and radios are unchanged |
| Page.Page.LoadFile | main.js:197-199 | a read file replaces the import text and the status names it |
| Page.Page.Import | main.js:245-294 | blank text only sets the warning; otherwise the escaped code card is prepended, results are shown, the confirmation is set and the pane switches from active to collapsed |
| Page.Page.PrependCard | main.js:284-293 | the committed card goes first, results show, the confirmation is set and the pane switches from active to collapsed |
| Page.Page.RemoveImported | main.js:275-282 | the card goes, the card count drops by one, and the collapsed marker is cleared exactly when no result card is left |
| Page.Page.Search | main.js:74-102 | the results become the rendering of the generated items for the trimmed query and the current mode; nothing else but visibility changes |
| Page.Page.ShowResults | main.js:75-91 | the rendered results are those of the trimmed query under the mode read from the page |
| Page.Page.RenderResults | main.js:90-101 | rendering leaves exactly the notice for no items, else one card per item in order |
| Page.Page.RadioKey | main.js:27-39 | in the query input or the import area the checked radio moves to its neighbour; leaving the import area for the query input then re-evaluates the import pane as its blur handler does; sidebar, results and texts are unchanged |
| Page.Page.SidebarKey | main.js:160-171 | outside text fields Left collapses and Right expands the sidebar; in any text field the sidebar is unchanged; an unusable store keeps its value; the import pane, results and radios are unchanged |
| Page.Page.ArrowKey | main.js:27-171 | one arrow key runs both listeners in registration order: the radio move and its blur effect in the two text fields, the sidebar change elsewhere, never both |

## Left out

- The 600 ms search delay, the loader element and the status-clearing timers: a search is one step (clear, then render), and status texts are not cleared.
- `FileReader`, the file picker click and drag-and-drop (including the `drag` marker): `LoadFile` takes the file name and the text a completed read delivers.
- `localStorage` failures are one flag, `storageUsable`: when storage cannot be used every read and write is dropped and the stored value is left as it was.
- The guards for missing elements (`appLayout`, `sidebar`, `collapseBtn`, `importArea`): the page markup is assumed complete.
- Focus moves: focus is an argument of the handlers. The focus on load is not modelled; the focus move after a radio change is modelled only through its one effect on the state, the import area's blur handler.
- HTML parsing of `innerHTML`: cards hold their text, not markup. The query-derived title is inserted into result-card markup unescaped; the model does not judge whether markup characters in a query were meant to be rendered.
- A legacy mode button without a `data-mode` attribute (an undefined mode): button modes are strings.
- JavaScript strings are UTF-16 code units; the model uses Unicode scalar values, so a surrogate pair is one character here.
- The initial markup state is assumed to have no layout markers set, no results and no reveal tab.
