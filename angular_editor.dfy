/**
 * The Angular component `warpview-editor`: its `debug` and `theme` input
 * setters, the padding in `ngOnInit`, the ctrl-click handler of
 * `ngAfterViewInit`, the breakpoint and highlight methods and `execute`.
 * The WarpScript parser's results (the statement list and the special
 * comments) arrive as values; the Monaco editor, the HTTP request and the
 * template are not modelled.
 */
module AngularEditor {
  import opened Js
  import opened Decorations
  import opened Execution
  import opened InitialCode
  import opened Settings
  import opened WarpFleet

  /** What `WarpScriptParser.extractSpecialComments` found in the script's comments. */
  datatype SpecialComments = SpecialComments(endpoint: Option<string>, displayPreviewOpt: Option<string>)

  /** The payload of the ctrl-click event. */
  datatype DocGenerationParams = DocGenerationParams(endpoint: string, macroName: string, wfRepos: seq<string>)

  /** The preview option that selects the image tab. */
  const ImagePreview := "I"

  class WarpViewEditorComponent {
    var url: string
    var debugFlag: bool
    var themeName: string
    var monacoTheme: string
    /** Undefined until the load hook writes it; the constructor leaves it unconstrained. */
    var innerCode: string
    var minLineNumber: int
    var breakpoints: Breakpoints
    var selectedResultTab: int
    var loading: bool
    /** Whether `this.ed` holds an editor, i.e. `create` has run in `ngAfterViewInit`. */
    var editorReady: bool

    /** The decoration dictionary holds what the two operations put there, with at most one highlight. */
    ghost predicate Valid()
      reads this
    {
      WellFormed(breakpoints) && AtMostOneHighlight(breakpoints)
    }

    /** The field defaults (`_debug`, `_theme`, `monacoTheme`, …) of a new component. */
    constructor ()
      ensures Valid()
      ensures url == "" && !debugFlag && themeName == "light" && monacoTheme == "vs"
      ensures minLineNumber == DefaultMinLineNumber && breakpoints == map[]
      ensures selectedResultTab == -1 && !loading && !editorReady
    {
      url := "";
      debugFlag := false;
      themeName := "light";
      monacoTheme := "vs";
      minLineNumber := DefaultMinLineNumber;
      breakpoints := map[];
      selectedResultTab := -1;
      loading := false;
      editorReady := false;
    }

    /** The `debug` setter: a string is true only when it is `'true'`. */
    method SetDebug(debug: BoolOrString)
      modifies this`debugFlag
      ensures debugFlag == DebugFlag(debug)
      ensures debug.Str? ==> (debugFlag <==> debug.s == "true")
      ensures debug.Bool? ==> debugFlag == debug.b
    {
      match debug
      case Str(s) => debugFlag := "true" == s;
      case Bool(b) => debugFlag := b;
    }

    /** The `theme` setter: the raw value goes to `_theme`, its Monaco name to `monacoTheme`. */
    method SetTheme(newValue: string)
      modifies this`themeName, this`monacoTheme
      ensures themeName == newValue
      ensures monacoTheme == MonacoTheme(newValue)
      ensures monacoTheme == "vs-dark" <==> newValue == "dark"
    {
      if "dark" == newValue {
        monacoTheme := "vs-dark";
      } else {
        monacoTheme := "vs";
      }
      themeName := newValue;
    }

    /**
     * `ngOnInit`: merge the configured minimum line count, take the element's
     * text padded with blank lines, and apply a dark theme.
     */
    method NgOnInit(textContent: string, configuredMinLineNumber: Option<int>)
      modifies this`minLineNumber, this`innerCode, this`monacoTheme
      ensures minLineNumber == if configuredMinLineNumber.Some? then configuredMinLineNumber.value else old(minLineNumber)
      ensures textContent <= innerCode
      ensures forall k :: |textContent| <= k < |innerCode| ==> innerCode[k] == '\n'
      ensures LineCount(innerCode) == Max(LineCount(textContent), minLineNumber)
      ensures monacoTheme == if themeName == "dark" then "vs-dark" else old(monacoTheme)
    {
      if configuredMinLineNumber.Some? {
        minLineNumber := configuredMinLineNumber.value;
      }
      innerCode := PadToMinLines(textContent, minLineNumber);
      if "dark" == themeName {
        monacoTheme := "vs-dark";
      }
    }

    /** The assignment `this.ed = create(…)` of `ngAfterViewInit`. */
    method EditorCreated()
      modifies this`editorReady
      ensures editorReady
    {
      editorReady := true;
    }

    /**
     * The mouse-down handler installed in `ngAfterViewInit`: with the ctrl key
     * it returns the documentation request for the word under the cursor.
     * `word` is `None` where `getWordAtPosition` finds no word; reading
     * `.word` of that null throws before anything is emitted. `None` is
     * returned when nothing is emitted.
     */
    method OnCtrlClick(ctrlKey: bool, word: Option<string>, specialHeaders: SpecialComments, statements: seq<string>)
      returns (emitted: Option<DocGenerationParams>)
      ensures emitted.Some? <==> ctrlKey && word.Some?
      ensures emitted.Some? ==> emitted.value.macroName == word.value
      ensures emitted.Some? ==> emitted.value.endpoint == OrElse(specialHeaders.endpoint, url)
      ensures emitted.Some? ==> emitted.value.wfRepos == WarpFleetRepos(statements)
    {
      if ctrlKey && word.Some? {
        var name := word.value;
        var repos := ExtractRepos(statements);
        emitted := Some(DocGenerationParams(OrElse(specialHeaders.endpoint, url), name, repos));
      } else {
        emitted := None;
      }
    }

    /** `highlight(line)`: the only `hl` key afterwards is `hl-<line>`; breakpoints stay. */
    method Highlight(line: int)
      requires Valid()
      modifies this`breakpoints
      ensures Valid()
      ensures breakpoints == Highlighted(old(breakpoints), line)
    {
      var kept := RemoveHighlights(breakpoints);
      breakpoints := kept[HighlightKey(line) := HighlightLine(line)];
      HighlightedWellFormed(old(breakpoints), line);
    }

    /** `toggleBreakPoint(line)`; `emitted` is the dictionary sent with the breakpoint event. */
    method ToggleBreakPoint(line: int) returns (emitted: Breakpoints)
      requires Valid()
      modifies this`breakpoints
      ensures Valid()
      ensures breakpoints == Toggled(old(breakpoints), line)
      ensures emitted == breakpoints
    {
      ToggledWellFormed(breakpoints, line);
      ToggledAtMostOneHighlight(breakpoints, line);
      var currentKey := BreakpointKey(line);
      if currentKey in breakpoints {
        breakpoints := breakpoints - {currentKey};
      } else {
        breakpoints := breakpoints[currentKey := BreakpointGlyph(line)];
      }
      emitted := breakpoints;
    }

    /**
     * `execute`, up to the `fetch` call: the URL posted to, or `None` when
     * there is no editor. The preview option `I` selects the image tab.
     */
    method Execute(specialHeaders: SpecialComments) returns (executionUrl: Option<string>)
      modifies this`selectedResultTab, this`loading
      ensures editorReady ==> loading
      ensures editorReady ==> selectedResultTab == TabAfterExecute(old(selectedResultTab), specialHeaders.displayPreviewOpt == Some(ImagePreview))
      ensures editorReady ==> executionUrl == Some(OrElse(specialHeaders.endpoint, url))
      ensures !editorReady ==> !loading && selectedResultTab == old(selectedResultTab) && executionUrl == None
    {
      if editorReady {
        loading := true;
        var previewType := OrElse(specialHeaders.displayPreviewOpt, "none");
        PreviewFallback(specialHeaders.displayPreviewOpt, ImagePreview);
        if previewType == ImagePreview {
          selectedResultTab := ImageTab;
        } else if selectedResultTab == ImageTab {
          selectedResultTab := ResultsTab;
        }
        executionUrl := Some(OrElse(specialHeaders.endpoint, url));
      } else {
        loading := false;
        executionUrl := None;
      }
    }
  }
}
