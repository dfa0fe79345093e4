/**
 * The blank-line padding that both editor components apply to the code found
 * in the host element before the editor is created: newlines are appended
 * until the buffer has `minLineNumber` lines (as counted by `split('\n')`).
 */
module InitialCode {
  import opened Js

  /** `innerConfig.editor.minLineNumber` before the host's configuration is merged in. */
  const DefaultMinLineNumber := 10

  function Max(a: int, b: int): int
  {
    if a < b then b else a
  }

  /** The padding loop: `for (i = lines(code); i < minLineNumber; i++) code += '\n'`. */
  method PadToMinLines(code: string, minLineNumber: int) returns (padded: string)
    ensures code <= padded
    ensures forall k :: |code| <= k < |padded| ==> padded[k] == '\n'
    ensures LineCount(padded) == Max(LineCount(code), minLineNumber)
  {
    padded := code;
    var i := LineCount(code);
    while i < minLineNumber
      invariant code <= padded
      invariant forall k :: |code| <= k < |padded| ==> padded[k] == '\n'
      invariant i == LineCount(padded)
      invariant LineCount(code) <= i <= Max(LineCount(code), minLineNumber)
      decreases minLineNumber - i
    {
      LineCountAppendNewline(padded);
      padded := padded + "\n";
      i := i + 1;
    }
  }
}
