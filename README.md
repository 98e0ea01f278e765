# Colour validation and the colour page of an admin catalogue client

This project models the one piece of the catalogue admin client that has
behaviour worth stating: the colour page, `pages/ColorPage.tsx`. It has two parts.

- **The colour-string validator and display-colour resolver.** `isValidColor` accepts a
  string when one of five anchored regular expressions matches it: `#` with three or six hex
  digits, `rgb(…)`, `rgba(…)`, `hsl(…)` or `hsla(…)`. Otherwise it asks the browser's
  CSS parser. `getDisplayColor` returns the input if it is valid. Otherwise it puts `#` in
  front of exactly three or six bare hex digits. Anything else becomes the grey `#6b7280`.
- **The page's add/edit state.** The handlers update the fields `colors`, `newColor`,
  `editColorId`, `editColorName`, `loading` and `error`. They call the remote colour
  service and reload the list after every successful write.

Modules (one file each):

- `Wrappers` (`wrappers.dfy`): an `Option` type that works with `:-`.
- `JsText` (`js_text.dfy`): the JavaScript character classes `\d`, `[A-Fa-f0-9]`
  and `\s`, plus `String.prototype.trim`. `\s` and `trim` share one character set, the
  WhiteSpace and LineTerminator productions of ECMA-262, and both are modelled exactly.
- `ColorSyntax` (`color_syntax.dfy`): the five regular expressions as a grammar. A datatype
  `ColorLiteral` holds the capture groups, `Render` gives a literal's text, and `WellFormed`
  says which literals the patterns allow. Deterministic parsers (`MatchHex`,
  `MatchFunctional`) carry soundness in their contracts. Round-trip lemmas prove them
  complete.
- `PatternExamples` (`pattern_examples.dfy`): concrete strings at the edges of each pattern.
- `DisplayColor` (`display_color.dfy`): `IsValidColor`, `GetDisplayColor`, the add form's
  preview swatch, and their properties. The browser's CSS parser is a parameter
  `css: string -> bool`, and every property holds for every such parser.
- `ColorPageModel` (`color_page.dfy`): the page state as a `PageState` value and one
  transition function per handler. The class `ColorPage` keeps the same fields, and each
  method is proved to move its state exactly as the matching transition does. Remote calls
  are parameters (`Reply`, `ListReply`). Each request the page sends is appended to `sent`.

Two points about the code that the model follows:
- `getDisplayColor` puts `#` in front of bare hex digits only when `isValidColor` rejects
  them. No pattern accepts bare hex, so this happens exactly when the browser also rejects
  them (`DisplayOfBareHex`).
- The colour service functions rethrow their errors. So on the colour page a failed call
  reaches the handler's `catch` and sets a message; it is not swallowed.

## Model

| member | source | states |
|---|---|---|
| `JsText.Span` | pages/ColorPage.tsx:20-24 | greedy `\d*` / `\s*` at the start of a string: the matched run is all in the class, the rest does not start with it, and together they give back the input |
| `JsText.SpanOf` | pages/ColorPage.tsx:20-24 | a run of the class followed by a character outside it is split exactly there |
| `JsText.TrimShape` | pages/ColorPage.tsx:58 | `s.trim()` is empty exactly when every character of `s` is JavaScript whitespace; otherwise it starts and ends with non-whitespace |
| `JsText.TrimOf` | pages/ColorPage.tsx:64 | trimming whitespace + core + whitespace gives the core, when the core neither starts nor ends with whitespace |
| `JsText.TrimSplit` | pages/ColorPage.tsx:169 | every string is its trimmed form with whitespace on both sides |
| `JsText.TrimIdempotent` | pages/ColorPage.tsx:86 | trimming an already trimmed name changes nothing |
| `ColorSyntax.ParseNumber` | pages/ColorPage.tsx:20 | `\d{1,3}`: one to three ASCII digits, and the rest does not start with a digit |
| `ColorSyntax.ParseArg` | pages/ColorPage.tsx:23 | `\s*(\d{1,3})` with its unit: well-formed padding and digits whose text is the consumed prefix |
| `ColorSyntax.ParseTriple` | pages/ColorPage.tsx:20 | the three comma-separated components, padding only after a comma: a well-formed triple whose text is the consumed prefix |
| `ColorSyntax.ParseAlphaValue` | pages/ColorPage.tsx:21 | `0\|1\|0\.\d+`: a well-formed alpha value whose text is the consumed prefix |
| `ColorSyntax.ParseAlpha` | pages/ColorPage.tsx:24 | `,\s*` and the alpha value: a well-formed alpha whose text is the consumed prefix |
| `ColorSyntax.MatchHex` | pages/ColorPage.tsx:18 | whatever the `#` rule reads is a well-formed hex literal whose text is the whole input |
| `ColorSyntax.MatchFunctional` | pages/ColorPage.tsx:20-24 | whatever an `rgb`/`rgba`/`hsl`/`hsla` rule reads is a well-formed literal of that rule whose text is the whole input (the `^…$` anchoring) |
| `ColorSyntax.ParseNumberOf` | pages/ColorPage.tsx:20 | one to three digits followed by a non-digit are read back exactly |
| `ColorSyntax.ParseArgOf` | pages/ColorPage.tsx:23 | a well-formed padded component followed by its unit is read back exactly |
| `ColorSyntax.ParseTripleOf` | pages/ColorPage.tsx:20 | the text of a well-formed triple is read back as that triple |
| `ColorSyntax.ParseAlphaValueOf` | pages/ColorPage.tsx:21 | the text of `0`, `1` or `0.` and digits, before `)`, is read back as that value |
| `ColorSyntax.ParseAlphaOf` | pages/ColorPage.tsx:24 | the text of a well-formed alpha component, before `)`, is read back as that component |
| `ColorSyntax.MatchFunctionalOf` | pages/ColorPage.tsx:20-24 | round trip: the text of every well-formed functional literal is matched by its own rule and read back as itself |
| `ColorSyntax.MatchHexOf` | pages/ColorPage.tsx:18 | round trip: `#` with three or six hex digits is matched and read back as itself |
| `ColorSyntax.MatchFunctionalExact` | pages/ColorPage.tsx:20-24 | a functional rule reads `s` as `lit` if and only if `lit` is a well-formed literal of that rule and its text is `s` |
| `ColorSyntax.MatchHexExact` | pages/ColorPage.tsx:18 | the `#` rule reads `s` as `lit` if and only if `lit` is a well-formed hex literal and its text is `s` |
| `ColorSyntax.HexPatternExact` | pages/ColorPage.tsx:18 | the `#` rule accepts exactly `#` followed by three or six hex digits of either case |
| `ColorSyntax.PatternLanguage` | pages/ColorPage.tsx:18-24 | together the five regular expressions accept exactly the texts of well-formed colour literals |
| `ColorSyntax.AlphaTextExact` | pages/ColorPage.tsx:21 | an alpha component's text is exactly `0`, `1`, or `0.` followed by one or more digits |
| `PatternExamples.HexRuleExamples` | pages/ColorPage.tsx:18 | `#abc` and `#A0b1C2` match; `#abcd`, `#abcde`, `#abcdefa`, `abc` and `#ggg` do not |
| `PatternExamples.RgbAcceptsOutOfRange` | pages/ColorPage.tsx:20 | `rgb(999,999,999)` matches: there is no 0–255 range check |
| `PatternExamples.RgbAcceptsPaddingAfterComma` | pages/ColorPage.tsx:20 | a space or tab after a comma is accepted |
| `PatternExamples.RgbaAcceptsFraction` | pages/ColorPage.tsx:21 | `rgba(0,0,0, 0.5)` matches |
| `PatternExamples.HslAcceptsPercent` | pages/ColorPage.tsx:23 | `hsl(120,50%,50%)` matches |
| `PatternExamples.HslaAcceptsOne` | pages/ColorPage.tsx:24 | `hsla(120, 50%, 50%, 1)` matches |
| `PatternExamples.RgbRejectsLeadingSpace` | pages/ColorPage.tsx:20 | no whitespace before the first component |
| `PatternExamples.RgbRejectsSpaceBeforeComma` | pages/ColorPage.tsx:20 | no whitespace before a comma |
| `PatternExamples.RgbRejectsSpaceBeforeParen` | pages/ColorPage.tsx:20 | no whitespace before `)` |
| `PatternExamples.RgbRejectsFourDigits` | pages/ColorPage.tsx:20 | at most three digits in a component |
| `PatternExamples.RgbRejectsTwoComponents` | pages/ColorPage.tsx:20 | exactly three components |
| `PatternExamples.RgbRejectsPercent` | pages/ColorPage.tsx:20 | `%` is not allowed in `rgb` |
| `PatternExamples.HslRejectsMissingPercent` | pages/ColorPage.tsx:23 | `hsl` requires `%` after the second and third components |
| `PatternExamples.RgbaRejectsLeadingPoint` | pages/ColorPage.tsx:21 | an alpha of `.5` is rejected |
| `PatternExamples.RgbaRejectsOnePointZero` | pages/ColorPage.tsx:21 | an alpha of `1.0` is rejected |
| `PatternExamples.RgbaRejectsEmptyDecimals` | pages/ColorPage.tsx:21 | an alpha of `0.` is rejected |
| `DisplayColor.HashBareHexIsValid` | pages/ColorPage.tsx:36-38 | `#` in front of three or six hex digits gives a string the first pattern accepts |
| `DisplayColor.RenderStart` | pages/ColorPage.tsx:18-24 | every pattern's text starts with `#`, `r` or `h` |
| `DisplayColor.PatternsStartWithMark` | pages/ColorPage.tsx:18-24 | whatever the five patterns accept starts with `#`, `r` or `h` |
| `DisplayColor.NoPatternAcceptsBareHex` | pages/ColorPage.tsx:36 | no pattern accepts three or six bare hex digits |
| `DisplayColor.DisplayOfValid` | pages/ColorPage.tsx:32-34 | a valid colour is displayed unchanged |
| `DisplayColor.DisplayOfBareHex` | pages/ColorPage.tsx:36-38 | three or six bare hex digits are displayed with `#` in front, unless the browser accepts them as they are |
| `DisplayColor.DisplayOfOther` | pages/ColorPage.tsx:40 | anything neither valid nor bare hex is displayed as `#6b7280` |
| `DisplayColor.DisplayColorIsValid` | pages/ColorPage.tsx:31-41 | the displayed colour is always accepted by `isValidColor`, and by the `#` rule unless it is the input itself |
| `DisplayColor.DisplayFixpoints` | pages/ColorPage.tsx:31-41 | a string is displayed unchanged if and only if it is a valid colour |
| `DisplayColor.DisplayIdempotent` | pages/ColorPage.tsx:31-41 | resolving a display colour a second time changes nothing |
| `DisplayColor.AddPreviewIsValid` | pages/ColorPage.tsx:169 | the add form's swatch always shows a colour `isValidColor` accepts |
| `DisplayColor.AddPreviewIgnoresPadding` | pages/ColorPage.tsx:169 | whitespace around the typed text does not change the swatch |
| `DisplayColor.DisplayExamples` | pages/ColorPage.tsx:36-40 | `notacolor` falls back to the grey and `ff0000` becomes `#ff0000` when the browser rejects both |
| `ColorPageModel.AddGuard` | pages/ColorPage.tsx:57-64 | a whitespace-only new colour sets "Please enter a color name or code" and sends nothing; any other input sends an add request with the trimmed text |
| `ColorPageModel.AddFailureKeepsState` | pages/ColorPage.tsx:68-71 | a failed add sends only the add request, sets "Failed to add color" and changes nothing else |
| `ColorPageModel.AddSuccessReloads` | pages/ColorPage.tsx:64-67 | a successful add clears the input, sends the add and then the reload request, and shows the reloaded list |
| `ColorPageModel.UpdateGuard` | pages/ColorPage.tsx:80-83 | saving with a blank draft or with no colour being edited sets "Color name cannot be empty" and changes nothing else |
| `ColorPageModel.UpdateSuccessClearsEdit` | pages/ColorPage.tsx:85-90 | a successful save sends the edited id with the trimmed draft, then the reload, closes the edit form and shows the reloaded list |
| `ColorPageModel.UpdateFailureKeepsEdit` | pages/ColorPage.tsx:91-94 | a failed save keeps the edit form open on the same draft and sets "Failed to update color" |
| `ColorPageModel.EscapeClearsEdit` | pages/ColorPage.tsx:114-117 | `handleKeyPress` called with the key `Escape` closes the edit form and sends nothing |
| `ColorPageModel.StepsKeepEditFormConsistent` | pages/ColorPage.tsx:74-118 | every handler keeps the edit draft empty while no colour is being edited |
| `ColorPageModel.NamesTrimmedAppend` | pages/ColorPage.tsx:64 | appending a request with a trimmed name keeps every request's name trimmed |
| `ColorPageModel.TrimmedNameRequest` | pages/ColorPage.tsx:86 | a name that passed the blank check is sent non-empty and already trimmed |
| `ColorPageModel.WritesSendTrimmedNames` | pages/ColorPage.tsx:57-95 | add and update only ever send non-empty, trimmed names, and only append to what was sent |
| `ColorPageModel.FailedWritesKeepList` | pages/ColorPage.tsx:97-107 | a failed write never changes the list; a confirmed successful delete sends the delete and then the reload and shows the reloaded list; an unconfirmed delete does nothing |
| `ColorPageModel.ColorPage.constructor` | pages/ColorPage.tsx:10-15 | the initial state: no colours, empty inputs, no edit, not loading, no error, nothing sent |
| `ColorPageModel.ColorPage.FetchColors` | pages/ColorPage.tsx:43-55 | sends the reload request; on success shows the listed colours (empty when the payload has no data) and clears the error; on failure keeps the list and sets "Failed to load colors"; always ends not loading |
| `ColorPageModel.ColorPage.HandleAddColor` | pages/ColorPage.tsx:57-72 | moves the page state exactly as `AddColorStep` does and keeps the edit form consistent |
| `ColorPageModel.ColorPage.HandleEditColor` | pages/ColorPage.tsx:74-77 | opens the edit form on the given id and name |
| `ColorPageModel.ColorPage.HandleUpdateColor` | pages/ColorPage.tsx:79-95 | moves the page state exactly as `UpdateColorStep` does |
| `ColorPageModel.ColorPage.HandleDeleteColor` | pages/ColorPage.tsx:97-107 | moves the page state exactly as `DeleteColorStep` does; nothing happens when the dialog is declined |
| `ColorPageModel.ColorPage.CancelEdit` | pages/ColorPage.tsx:237-240 | closes the edit form |
| `ColorPageModel.ColorPage.HandleKeyPress` | pages/ColorPage.tsx:109-118 | `handleKeyPress` called with the key `Enter` runs the add or the update handler of its input; called with `Escape` it closes the edit form; other keys change nothing |
| `ColorPageModel.ColorPage.SetNewColor` | pages/ColorPage.tsx:158 | typing in the add input replaces `newColor` and nothing else |
| `ColorPageModel.ColorPage.SetEditColorName` | pages/ColorPage.tsx:218 | typing in the edit input, shown only while editing, replaces the draft and nothing else |
| `ColorPageModel.ColorPage.DismissError` | pages/ColorPage.tsx:141 | the banner's close button clears the error |

## Left out

- The browser's CSS parser (pages/ColorPage.tsx:26-28) assigns the string to `style.color` on a fresh element. It is a parameter `css`, and no CSS colour names are encoded. Every property is proved for all such parsers.
- The HTTP calls of store/color.ts are left out. Each handler takes the outcome of its calls as `Reply`/`ListReply` parameters, and the request it would send is recorded in `sent`.
- Asynchrony is left out. Each handler runs to completion before the next event, so overlapping reloads and their ordering are not modelled. This includes an Enter press while a reload is in flight: the Add button is disabled while loading (pages/ColorPage.tsx:174), but the Enter key is not.
- The Escape branch of `handleKeyPress` (pages/ColorPage.tsx:114-117) is modelled as written, but the page cannot reach it. Both inputs call the handler through `onKeyPress` (lines 159 and 219), and keypress fires only for keys that produce a character, which Escape does not. The model does not capture which keys the browser delivers.
- `window.confirm` (pages/ColorPage.tsx:98) is the parameter `confirmed`.
- `console.error` logging is left out.
- Rendering is left out. Only the add form's preview swatch (line 169) is modelled. The edit preview (line 212) and the list swatches (line 202) are `GetDisplayColor` applied to the draft and to the stored name.
- `loading` is set true at the start of a reload, but a handler that runs to completion always leaves it false. Only the final value is observable in this model.
- The other entity pages, the other stores and API wrappers, authentication and routing hold no logic beyond copying fields into requests. They are not part of this model.
