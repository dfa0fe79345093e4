# warpview-editor: a Dafny model of the editor components' rules

The repository ships the same WarpScript code editor twice: as the Stencil
web component `warp-view-editor` (`src/components/warp-view-editor/warp-view-editor.tsx`)
and as the Angular component `warpview-editor`
(`src/app/elements/warp-view-editor/warp-view-editor.component.ts`). Both sit
on top of the Monaco editor. This project models the rules in them that do
not depend on the browser, the editor library or the network. Each rule is
written in Dafny and its properties are proved:

- the completion-kind classifier `getType`. It is an ordered table of
  substring rules over the space-joined tags of a WarpScript function.
  Four of the rules exempt one function name (module `Completion`);
- which unit `formatElapsedTime` picks for the server-side execution time
  (module `ElapsedTime`);
- the pane sizes that `getItems` gives the split widget, with the JavaScript
  `||` fall-backs (module `SplitLayout`);
- the blank-line padding of the initial code up to `minLineNumber` lines
  (module `InitialCode`, a loop method);
- the `breakpoints` dictionary. `toggleBreakPoint` flips `bp-<line>`, and
  `highlight` replaces every `hl…` key with `hl-<line>` (module `Decorations`);
- the two choices `execute` makes before posting the script: which result tab
  to select, and which URL to post to (module `Execution`);
- the Angular-only WarpFleet repository extraction of the ctrl-click handler
  (module `WarpFleet`), and the `debug` / `theme` input mappings (module `Settings`);
- one class per component, `StencilEditor.WarpViewEditor` and
  `AngularEditor.WarpViewEditorComponent`. They hold the fields these
  operations update. Their methods change those fields in place and are
  specified by the functions above.

The module `Js` models the JavaScript built-ins these rules depend on, on
strings of Unicode characters and on integers: `split('\n')`, `join(' ')`, `indexOf(…) > -1`,
`startsWith`/`endsWith`, `substring` (it clamps its bounds and swaps them
when they are reversed), the decimal rendering of a line number, and
`a || b` (an undefined value or `''` counts as false).

The statement list and the comment directives come from the WarpScript
parser (`WarpScriptParser.parseWarpScriptStatements`,
`extractSpecialComments`, `Utils.readCommentsModifiers`). That parser is not
part of this model. Its results are inputs: a `seq<string>` of statements,
and a record whose fields may be absent.

The image preview is selected by different tokens in the two components.
The Stencil component compares the `preview` directive with `'imag'`
(warp-view-editor.tsx:475). The Angular one compares `displayPreviewOpt`
with `'I'` (warp-view-editor.component.ts:529).

## Model

| member | source | states |
|---|---|---|
| Js.OrElse | src/components/warp-view-editor/warp-view-editor.tsx:480 | `a \|\| fallback` returns the fallback exactly when the value is absent, is `''`, or equals the fallback; any other result is the value itself |
| Js.SplitLength | src/components/warp-view-editor/warp-view-editor.tsx:209 | `split('\n').length` is the number of newlines plus one |
| Js.SplitJoin | src/components/warp-view-editor/warp-view-editor.tsx:209 | joining the pieces of `split(c)` with `c` gives back the text: the line count comes from a split that loses nothing |
| Js.SplitPiecesFree | src/app/elements/warp-view-editor/warp-view-editor.component.ts:241 | no piece of `split(c)` contains `c` |
| Js.LineCountAppendNewline | src/components/warp-view-editor/warp-view-editor.tsx:209-211 | appending `'\n'` adds exactly one line |
| Js.ContainsJoin | src/components/warp-view-editor/warp-view-editor.tsx:53-54 | a non-empty keyword without a space occurs in `tags.join(' ')` exactly when it occurs in one of the tags |
| Js.ContainsAround | src/app/elements/warp-view-editor/warp-view-editor.component.ts:189-190 | an occurrence in `a + ' ' + b` of a pattern without a space lies inside `a` or inside `b` |
| Js.DecimalStringInjective | src/components/warp-view-editor/warp-view-editor.tsx:443 | different line numbers render as different strings, so `'bp-' + line` names one line |
| Js.DecimalStringSign | src/components/warp-view-editor/warp-view-editor.tsx:426 | the rendering of a number starts with `-` exactly when the number is negative |
| Completion.GetTypeFollowsRules | src/components/warp-view-editor/warp-view-editor.tsx:52-73 | the if/else chain of `getType` gives the same result as the rule table read top to bottom (keyword, exempt name, kind) |
| Completion.FirstFiringIsFirst | src/components/warp-view-editor/warp-view-editor.tsx:54-69 | the table returns the kind of the earliest rule that fires |
| Completion.FirstFiringNoneFires | src/components/warp-view-editor/warp-view-editor.tsx:70-72 | when no rule fires, the table returns `Function` |
| Completion.FirstFiringKinds | src/app/elements/warp-view-editor/warp-view-editor.component.ts:200-208 | the table returns the kind of one of its rules, or `Function` |
| Completion.GetTypeEnumIff | src/components/warp-view-editor/warp-view-editor.tsx:53-55 | the result is `Enum` exactly when some tag contains `constant`, whatever the name |
| Completion.GetTypeNoKeywordIsFunction | src/components/warp-view-editor/warp-view-editor.tsx:52-73 | when no tag contains any of the eight keywords, the result is `Function` |
| Completion.ExemptNameFallsThrough | src/components/warp-view-editor/warp-view-editor.tsx:56-69 | `REDUCE`, `MAP`, `BUCKETIZE` or `FILTER`, with no `constant` and no other Interface keyword, is not an `Interface`: the control / operators / stack rules classify it |
| Completion.ExemptNameOnlyOwnKeyword | src/app/elements/warp-view-editor/warp-view-editor.component.ts:192-207 | an exempt function whose only keyword is its own category is a `Function` |
| Completion.GetTypeNameIrrelevant | src/app/elements/warp-view-editor/warp-view-editor.component.ts:188-209 | two names that are not one of the four exempt names are classified the same way |
| ElapsedTime.UnitPartition | src/components/warp-view-editor/warp-view-editor.tsx:80-95 | ns below 1000, μs in [1e3, 1e6), ms in [1e6, 1e9), s in [1e9, 1e12), m from 1e12 on |
| ElapsedTime.UnitMonotone | src/app/elements/warp-view-editor/warp-view-editor.component.ts:211-226 | a longer time never gets a smaller unit |
| ElapsedTime.MissingHeaderIsMinutes | src/components/warp-view-editor/warp-view-editor.tsx:489 | a missing or non-numeric header (`parseInt` gives `NaN`) fails every test and is shown with ` m ` |
| ElapsedTime.ScaledValueRange | src/components/warp-view-editor/warp-view-editor.tsx:81-92 | below the minute range, a non-negative time divided by its unit's divisor is below 1000, and at least 1 except in ns |
| ElapsedTime.MinutesScaledValue | src/components/warp-view-editor/warp-view-editor.tsx:93-94 | in the minute range (divisor 6e10) the displayed number is above 16 |
| SplitLayout.HiddenResultIsWholeEditor | src/components/warp-view-editor/warp-view-editor.tsx:668-670 | without the result pane, the only pane is `editor` with size 100 |
| SplitLayout.PaneOrder | src/components/warp-view-editor/warp-view-editor.tsx:665-667 | with the result pane there are two panes, `editor` then `result` |
| SplitLayout.DefaultHalves | src/components/warp-view-editor/warp-view-editor.tsx:666-667 | no `initialSize`, or one without `p`, gives 50 and 50 |
| SplitLayout.ShareSplits | src/app/elements/warp-view-editor/warp-view-editor.component.ts:629-630 | `p` strictly between 0 and 100 gives `p` and `100 - p` |
| SplitLayout.TotalIsHundredIff | src/components/warp-view-editor/warp-view-editor.tsx:666-667 | the two sizes add up to 100 exactly when `p` is neither 0 nor 100; those two values give 150 because `0 \|\| 50` is 50 |
| InitialCode.PadToMinLines | src/components/warp-view-editor/warp-view-editor.tsx:209-211 | the padding loop keeps the original code as a prefix and appends only `'\n'`; the line count becomes max(original count, `minLineNumber`) |
| Decorations.Toggled | src/components/warp-view-editor/warp-view-editor.tsx:442-454 | `bp-<line>` is present afterwards exactly when it was absent before; every other key keeps its presence and its value |
| Decorations.WithoutHighlights | src/components/warp-view-editor/warp-view-editor.tsx:427-431 | exactly the keys that do not start with `hl` remain, with their values |
| Decorations.Highlighted | src/components/warp-view-editor/warp-view-editor.tsx:425-438 | afterwards the only `hl`-prefixed key is `hl-<line>`, and it holds the line's highlight; keys that are not `hl` keep their presence and values |
| Decorations.RemoveHighlights | src/app/elements/warp-view-editor/warp-view-editor.component.ts:482-486 | the key-by-key deletion loop leaves exactly the keys that do not start with `hl` |
| Decorations.BreakpointKeyInjective | src/app/elements/warp-view-editor/warp-view-editor.component.ts:498 | different lines have different `bp-` keys |
| Decorations.HighlightKeyInjective | src/app/elements/warp-view-editor/warp-view-editor.component.ts:481 | different lines have different `hl-` keys |
| Decorations.KeyFamilies | src/components/warp-view-editor/warp-view-editor.tsx:426-443 | a `bp-` key never starts with `hl`, so `highlight` never deletes a breakpoint |
| Decorations.ToggledWellFormed | src/components/warp-view-editor/warp-view-editor.tsx:442-454 | toggling keeps every entry holding the decoration its key names |
| Decorations.ToggledAtMostOneHighlight | src/app/elements/warp-view-editor/warp-view-editor.component.ts:497-509 | toggling keeps at most one highlighted line |
| Decorations.HighlightedWellFormed | src/components/warp-view-editor/warp-view-editor.tsx:425-438 | highlighting keeps every entry holding the decoration its key names, and leaves at most one highlight |
| Decorations.ToggleTwiceRestores | src/components/warp-view-editor/warp-view-editor.tsx:442-454 | toggling the same line twice restores the dictionary |
| Decorations.ToggleOtherLine | src/app/elements/warp-view-editor/warp-view-editor.component.ts:497-509 | toggling one line leaves the breakpoint of every other line as it was |
| Decorations.ToggleCommutes | src/app/elements/warp-view-editor/warp-view-editor.component.ts:497-509 | toggles of two lines give the same dictionary in either order |
| Decorations.HighlightLastWins | src/app/elements/warp-view-editor/warp-view-editor.component.ts:480-493 | two highlights leave the same dictionary as the last one alone |
| Decorations.HighlightToggleCommute | src/components/warp-view-editor/warp-view-editor.tsx:425-457 | a highlight and a breakpoint toggle give the same dictionary in either order |
| Execution.TabAfterExecute | src/components/warp-view-editor/warp-view-editor.tsx:474-479 | the image tab (2) is selected exactly when an image preview is asked for; otherwise tab 2 becomes 0 and any other tab stays |
| Execution.TabAfterExecuteIdempotent | src/app/elements/warp-view-editor/warp-view-editor.component.ts:528-533 | executing twice with the same preview mode selects the same tab as executing once |
| Execution.PreviewFallback | src/components/warp-view-editor/warp-view-editor.tsx:474-475 | `preview \|\| 'none'` equals the image token exactly when the directive is that token |
| Execution.EndpointFallback | src/app/elements/warp-view-editor/warp-view-editor.component.ts:534 | the execution URL is the directive endpoint when it is a non-empty string, and the component's `url` otherwise |
| Settings.DebugFlagCases | src/app/elements/warp-view-editor/warp-view-editor.component.ts:66-72 | the string `'true'` gives true and every other string false; booleans pass through |
| Settings.MonacoThemeCases | src/app/elements/warp-view-editor/warp-view-editor.component.ts:78-86 | the Monaco theme is `vs-dark` exactly for `'dark'`, and `vs` for anything else |
| WarpFleet.ExtractRepos | src/app/elements/warp-view-editor/warp-view-editor.component.ts:436-449 | the `forEach` loop that pushes into `repos` computes the extracted repository list |
| WarpFleet.RepoIndicesAreExact | src/app/elements/warp-view-editor/warp-view-editor.component.ts:438-443 | the registering indices, increasing, are exactly those i > 0 where `WF.ADDREPO` follows a `"…"` or `'…'` statement |
| WarpFleet.ReposFollowIndices | src/app/elements/warp-view-editor/warp-view-editor.component.ts:438-449 | the j-th repository is the previous statement of the j-th registering `WF.ADDREPO`, without its first and last characters: order of discovery, duplicates kept |
| WarpFleet.ReposAreSound | src/app/elements/warp-view-editor/warp-view-editor.component.ts:439-446 | every repository comes from an index i > 0 holding `WF.ADDREPO` whose previous statement passes the quote test |
| WarpFleet.ReposAtMostMarkers | src/app/elements/warp-view-editor/warp-view-editor.component.ts:438-449 | there are never more repositories than `WF.ADDREPO` statements after the first position |
| WarpFleet.UnquoteRoundTrip | src/app/elements/warp-view-editor/warp-view-editor.component.ts:441-446 | for a quoted literal of two or more characters, putting the quotes back gives the statement |
| WarpFleet.LoneQuoteIsKept | src/app/elements/warp-view-editor/warp-view-editor.component.ts:441-446 | a one-character `"` passes the quote test, and `substring(1, 0)` swaps its bounds: the repository is `"` |
| WarpFleet.TwoRepos | src/app/elements/warp-view-editor/warp-view-editor.component.ts:436-449 | `"repo1" WF.ADDREPO 'repo2' WF.ADDREPO` gives `repo1`, `repo2` |
| WarpFleet.UnquotedOrFirstRegistersNothing | src/app/elements/warp-view-editor/warp-view-editor.component.ts:439-447 | `WF.ADDREPO` at index 0, `WF.ADDREPO` after `123`, and the empty list give no repository |
| StencilEditor.WarpViewEditor.constructor | src/components/warp-view-editor/warp-view-editor.tsx:98-165 | the defaults: empty `url`, theme `light`, Monaco theme `vs`, tab -1, no breakpoints, minimum 10 lines; `innerCode` is left unconstrained, as it is undefined until `componentWillLoad` |
| StencilEditor.WarpViewEditor.SetTheme | src/components/warp-view-editor/warp-view-editor.tsx:176-186 | a new `theme` sets `monacoTheme` to `vs-dark` for `'dark'` and to `vs` otherwise |
| StencilEditor.WarpViewEditor.ComponentWillLoad | src/components/warp-view-editor/warp-view-editor.tsx:199-214 | `innerCode` is the element's text padded with newlines to max(lines, `minLineNumber`); a `dark` theme selects `vs-dark` |
| StencilEditor.WarpViewEditor.EditorCreated | src/components/warp-view-editor/warp-view-editor.tsx:372 | after the editor is created, the component has an editor |
| StencilEditor.WarpViewEditor.Highlight | src/components/warp-view-editor/warp-view-editor.tsx:424-440 | `breakpoints` becomes `Highlighted(old breakpoints, line)`, and the dictionary invariant is kept |
| StencilEditor.WarpViewEditor.ToggleBreakPoint | src/components/warp-view-editor/warp-view-editor.tsx:442-457 | `breakpoints` becomes `Toggled(old breakpoints, line)`; the emitted value is the new dictionary; the invariant is kept |
| StencilEditor.WarpViewEditor.Execute | src/components/warp-view-editor/warp-view-editor.tsx:462-480 | with an editor: loading, tab per `TabAfterExecute` with preview `imag`, URL `warp10URL \|\| url`. Without one: not loading, tab unchanged, nothing posted |
| AngularEditor.WarpViewEditorComponent.constructor | src/app/elements/warp-view-editor/warp-view-editor.component.ts:65-178 | the defaults: empty `url`, `_debug` false, `_theme` `light`, Monaco theme `vs`, tab -1, no breakpoints, minimum 10 lines; `innerCode` is left unconstrained, as it is undefined until `ngOnInit` |
| AngularEditor.WarpViewEditorComponent.SetDebug | src/app/elements/warp-view-editor/warp-view-editor.component.ts:66-72 | `_debug` is true for the string `'true'` or the boolean true, and false otherwise |
| AngularEditor.WarpViewEditorComponent.SetTheme | src/app/elements/warp-view-editor/warp-view-editor.component.ts:77-90 | `_theme` holds the raw value; `monacoTheme` is `vs-dark` exactly for `'dark'` |
| AngularEditor.WarpViewEditorComponent.NgOnInit | src/app/elements/warp-view-editor/warp-view-editor.component.ts:232-246 | `innerCode` is the element's text padded with newlines to max(lines, `minLineNumber`); a `dark` `_theme` selects `vs-dark` |
| AngularEditor.WarpViewEditorComponent.EditorCreated | src/app/elements/warp-view-editor/warp-view-editor.component.ts:410 | after the editor is created, the component has an editor |
| AngularEditor.WarpViewEditorComponent.OnCtrlClick | src/app/elements/warp-view-editor/warp-view-editor.component.ts:428-456 | `docParams` is emitted exactly when ctrl is held and `getWordAtPosition` finds a word (a null word throws at `.word` first). The emitted value has endpoint `specialHeaders.endpoint \|\| url`, the clicked word, and exactly the extracted repositories |
| AngularEditor.WarpViewEditorComponent.Highlight | src/app/elements/warp-view-editor/warp-view-editor.component.ts:480-495 | `breakpoints` becomes `Highlighted(old breakpoints, line)`, and the dictionary invariant is kept |
| AngularEditor.WarpViewEditorComponent.ToggleBreakPoint | src/app/elements/warp-view-editor/warp-view-editor.component.ts:497-512 | `breakpoints` becomes `Toggled(old breakpoints, line)`; the emitted value is the new dictionary; the invariant is kept |
| AngularEditor.WarpViewEditorComponent.Execute | src/app/elements/warp-view-editor/warp-view-editor.component.ts:517-535 | with an editor: loading, tab per `TabAfterExecute` with preview option `I`, URL `endpoint \|\| url`. Without one: not loading, tab unchanged, nothing posted |

## Left out

- HTTP execution and response handling are network I/O and asynchronous code. This covers `fetch` and `AbortController`, `abort`, the promise callbacks, response headers, the status message, `JsonLib` parsing and `displayResult`. `Execute` stops at the URL that would be posted.
- Execute does not model the `result`, `status` and `error` fields. It clears them, and only the HTTP callbacks fill them in again.
- The Monaco setup is all foreign library calls: language registration, the Monarch tokens, brackets and on-enter rules, the hover and completion providers, `deltaDecorations` with the `decoration` field, and `setTheme`. Only the `getType` classifier that the completion provider calls is modelled.
- Layout code is DOM work on floating-point pixel values and UI: `resizeWatcher`, `resize`, the `setInterval`/`setTimeout` timers, the fixed-height branch of `componentDidLoad`/`ngAfterViewInit`, `render`, the Angular template and `responsiveStyle`.
- The `toFixed(3)` text of `formatElapsedTime` is floating-point formatting. Only the unit, its suffix and its divisor are modelled.
- The WarpScript parser, `Utils.readCommentsModifiers`, `Utils.toArray`, `wsGlobals` and `WarpScript.reference` are not part of this model. Their results are parameters.
- `Utils.mergeDeep` is not shown. ComponentWillLoad and NgOnInit take the configured `minLineNumber` as an optional number that overrides the default of 10. Parsing a configuration given as a JSON string is not modelled.
- Event emission is modelled only as the emitted value: ToggleBreakPoint returns it, and OnCtrlClick returns the `docParams`. The events that carry the content, the size, the result and the load are not modelled.
- The `warpscript` inputs are not modelled. The Stencil watcher passes the new text to `this.ed.setValue` and clears `loading`. The Angular setter forwards it only when an editor exists, and also stores it in `_warpscript` (warp-view-editor.component.ts:101). When the editor is created, its initial value is `_warpscript || innerCode` (warp-view-editor.component.ts:399). The getters of `debug` and `theme` return the stored fields and are not modelled separately.
- The logger (`Logger`, `LOG.setDebug`) is left out. It only produces diagnostic output.
- Highlight / ToggleBreakPoint: when no editor exists, the source throws on `this.ed.deltaDecorations` after it has already changed the dictionary. The model updates the dictionary and does not model the throw.
- RemoveHighlights: it visits the keys in an arbitrary order instead of `Object.keys` order. The result does not depend on the order.
- SplitLayout.TotalIsHundredIff: `initialSize.p` is modelled as an optional integer only. A fractional, `NaN` or non-numeric `p` is not covered, and neither are the unread `w`, `h` and `name` fields.
- Js.DecimalStringInjective: line numbers are integers. JavaScript's rendering of a fractional line number is not modelled.
- The `requestDataviz`, `onResized` and lifecycle teardown (`componentDidUnload`, `ngOnDestroy`) handlers only emit events or dispose foreign objects.
- ExtractRepos takes whatever statement list `parseWarpScriptStatements` returns. What that parser does with comments, strings and whitespace is not part of this model.
- Js.DecimalString: it writes every digit of the integer. JavaScript's `String(n)` switches to exponent notation (`"1e+21"`) for |n| ≥ 1e21, and those line numbers are not modelled.
- Js.Substring: it indexes Unicode characters, whereas JavaScript's `substring` indexes UTF-16 code units. Quoted WarpFleet repository names with characters outside the Basic Multilingual Plane are not modelled.
- StencilEditor.WarpViewEditor.ToggleBreakPoint and AngularEditor.WarpViewEditorComponent.ToggleBreakPoint: they return a copy of the new dictionary. The source emits the live `this.breakpoints` object, so a listener shares it with the component and sees later changes. That aliasing is not modelled.
