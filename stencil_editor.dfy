/**
 * The Stencil web component `warp-view-editor`: the fields that its
 * load hook, its breakpoint and highlight methods and `execute` update.
 * The Monaco editor itself, the HTTP request and the rendering are not
 * modelled; the directives read from the script's comments arrive as a
 * `CommentModifiers` value.
 */
module StencilEditor {
  import opened Js
  import opened Decorations
  import opened Execution
  import opened InitialCode
  import opened Settings

  /** What `Utils.readCommentsModifiers` found in the script's comments. */
  datatype CommentModifiers = CommentModifiers(preview: Option<string>, warp10URL: Option<string>)

  /** The preview token that selects the image tab. */
  const ImagePreview := "imag"

  class WarpViewEditor {
    var url: string
    var theme: string
    var monacoTheme: string
    /** Undefined until the load hook writes it; the constructor leaves it unconstrained. */
    var innerCode: string
    var minLineNumber: int
    var breakpoints: Breakpoints
    var selectedResultTab: int
    var loading: bool
    /** Whether `this.ed` holds an editor, i.e. `monaco.editor.create` has run. */
    var editorReady: bool

    /** The decoration dictionary holds what the two operations put there, with at most one highlight. */
    ghost predicate Valid()
      reads this
    {
      WellFormed(breakpoints) && AtMostOneHighlight(breakpoints)
    }

    /** The property and state defaults of the component. */
    constructor ()
      ensures Valid()
      ensures url == "" && theme == "light" && monacoTheme == "vs"
      ensures minLineNumber == DefaultMinLineNumber && breakpoints == map[]
      ensures selectedResultTab == -1 && !loading && !editorReady
    {
      url := "";
      theme := "light";
      monacoTheme := "vs";
      minLineNumber := DefaultMinLineNumber;
      breakpoints := map[];
      selectedResultTab := -1;
      loading := false;
      editorReady := false;
    }

    /** A new `theme` property and its watcher `themeHandler`. */
    method SetTheme(newValue: string)
      modifies this`theme, this`monacoTheme
      ensures theme == newValue
      ensures monacoTheme == MonacoTheme(newValue)
    {
      theme := newValue;
      if "dark" == newValue {
        monacoTheme := "vs-dark";
      } else {
        monacoTheme := "vs";
      }
    }

    /**
     * `componentWillLoad`: merge the configured minimum line count, take the
     * element's text padded with blank lines, and apply a dark theme.
     */
    method ComponentWillLoad(textContent: string, configuredMinLineNumber: Option<int>)
      modifies this`minLineNumber, this`innerCode, this`monacoTheme
      ensures minLineNumber == if configuredMinLineNumber.Some? then configuredMinLineNumber.value else old(minLineNumber)
      ensures textContent <= innerCode
      ensures forall k :: |textContent| <= k < |innerCode| ==> innerCode[k] == '\n'
      ensures LineCount(innerCode) == Max(LineCount(textContent), minLineNumber)
      ensures monacoTheme == if theme == "dark" then "vs-dark" else old(monacoTheme)
    {
      if configuredMinLineNumber.Some? {
        minLineNumber := configuredMinLineNumber.value;
      }
      innerCode := PadToMinLines(textContent, minLineNumber);
      if "dark" == theme {
        monacoTheme := "vs-dark";
      }
    }

    /** The assignment `this.ed = monaco.editor.create(…)` of `componentDidLoad`. */
    method EditorCreated()
      modifies this`editorReady
      ensures editorReady
    {
      editorReady := true;
    }

    /** `highlight(line)`: the only `hl` key afterwards is `hl-<line>`; breakpoints stay. */
    method Highlight(line: int)
      requires Valid()
      modifies this`breakpoints
      ensures Valid()
      ensures breakpoints == Highlighted(old(breakpoints), line)
    {
      var kept := RemoveHighlights(breakpoints);
      breakpoints := kept[HighlightKey(line) := HighlightLine(line)];
      HighlightedWellFormed(old(breakpoints), line);
    }

    /** `toggleBreakPoint(line)`; `emitted` is the dictionary sent with the breakpoint event. */
    method ToggleBreakPoint(line: int) returns (emitted: Breakpoints)
      requires Valid()
      modifies this`breakpoints
      ensures Valid()
      ensures breakpoints == Toggled(old(breakpoints), line)
      ensures emitted == breakpoints
    {
      ToggledWellFormed(breakpoints, line);
      ToggledAtMostOneHighlight(breakpoints, line);
      var currentKey := BreakpointKey(line);
      if currentKey in breakpoints {
        breakpoints := breakpoints - {currentKey};
      } else {
        breakpoints := breakpoints[currentKey := BreakpointGlyph(line)];
      }
      emitted := breakpoints;
    }

    /**
     * `execute`, up to the `fetch` call: the URL posted to, or `None` when
     * there is no editor. The preview directive `imag` selects the image tab.
     */
    method Execute(modifiers: CommentModifiers) returns (executionUrl: Option<string>)
      modifies this`selectedResultTab, this`loading
      ensures editorReady ==> loading
      ensures editorReady ==> selectedResultTab == TabAfterExecute(old(selectedResultTab), modifiers.preview == Some(ImagePreview))
      ensures editorReady ==> executionUrl == Some(OrElse(modifiers.warp10URL, url))
      ensures !editorReady ==> !loading && selectedResultTab == old(selectedResultTab) && executionUrl == None
    {
      if editorReady {
        loading := true;
        var previewType := OrElse(modifiers.preview, "none");
        PreviewFallback(modifiers.preview, ImagePreview);
        if previewType == ImagePreview {
          selectedResultTab := ImageTab;
        } else if selectedResultTab == ImageTab {
          selectedResultTab := ResultsTab;
        }
        executionUrl := Some(OrElse(modifiers.warp10URL, url));
      } else {
        loading := false;
        executionUrl := None;
      }
    }
  }
}
