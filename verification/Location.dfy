/** Line and column of a position (lang/src/compiler/location.rs), for a text of one byte per
    character. */
module Location {
  import opened Wrappers

  datatype Position = Position(line: nat, column: nat)

  datatype Result<T> = Ok(value: T) | OutOfBounds

  datatype File = File(source: string, lineStarts: seq<nat>)

  function FileOf(source: string): File {
    File(source, LineStarts(source, |source|))
  }

  /** The start of the text and the positions behind the line breaks of the first `n` characters. */
  function LineStarts(s: string, n: nat): (starts: seq<nat>)
    requires n <= |s|
    ensures |starts| == 1 + LineBreaks(s, n) && starts[0] == 0
    ensures Sorted(starts) && starts[|starts| - 1] == LineStartBefore(s, n) <= n
  {
    if n == 0 then [0]
    else if s[n - 1] == '\n' then LineStarts(s, n - 1) + [n]
    else LineStarts(s, n - 1)
  }

  ghost predicate Sorted(ns: seq<nat>) {
    forall i, j :: 0 <= i < j < |ns| ==> ns[i] < ns[j]
  }

  /** The number of line breaks before a position. */
  ghost function LineBreaks(s: string, b: nat): nat
    requires b <= |s|
  {
    if b == 0 then 0 else LineBreaks(s, b - 1) + if s[b - 1] == '\n' then 1 else 0
  }

  /** The position behind the last line break before a position. */
  ghost function LineStartBefore(s: string, b: nat): (start: nat)
    requires b <= |s|
    ensures start <= b
  {
    if b == 0 || s[b - 1] == '\n' then b else LineStartBefore(s, b - 1)
  }

  // ----- position -----

  datatype Search = Found(index: nat) | InsertAt(index: nat)

  function BinarySearch(ns: seq<nat>, b: nat, lo: nat, hi: nat): (r: Search)
    requires Sorted(ns) && lo <= hi <= |ns|
    requires (forall i :: 0 <= i < lo ==> ns[i] < b) && forall i :: hi <= i < |ns| ==> b < ns[i]
    ensures r.Found? ==> r.index < |ns| && ns[r.index] == b
    ensures r.InsertAt? ==> r.index <= |ns| && (forall i :: 0 <= i < r.index ==> ns[i] < b) && forall i :: r.index <= i < |ns| ==> b < ns[i]
    decreases hi - lo
  {
    if lo == hi then InsertAt(lo)
    else
      var mid := (lo + hi) / 2;
      if ns[mid] == b then Found(mid)
      else if ns[mid] < b then BinarySearch(ns, b, mid + 1, hi)
      else BinarySearch(ns, b, lo, mid)
  }

  function LineIndex(file: File, b: nat): nat
    requires Sorted(file.lineStarts) && file.lineStarts != [] && file.lineStarts[0] == 0
  {
    match BinarySearch(file.lineStarts, b, 0, |file.lineStarts|)
    case Found(line) => line
    case InsertAt(next) => next - 1
  }

  // One line past the last starts at the end of the text.
  function LineStart(file: File, line: nat): Result<nat> {
    if line < |file.lineStarts| then Ok(file.lineStarts[line])
    else if line == |file.lineStarts| then Ok(|file.source|)
    else OutOfBounds
  }

  function PositionOf(file: File, b: nat): Result<Position>
    requires Sorted(file.lineStarts) && file.lineStarts != [] && file.lineStarts[0] == 0
  {
    var line := LineIndex(file, b);
    match LineStart(file, line)
    case OutOfBounds => OutOfBounds
    case Ok(start) =>
      if start <= b <= |file.source| then Ok(Position(line, |file.source[start..b]|)) else OutOfBounds
  }

  // ----- What it finds -----

  lemma {:induction false} StartsSplit(s: string, b: nat, n: nat)
    requires b <= n <= |s|
    ensures LineStarts(s, b) <= LineStarts(s, n)
    ensures forall i :: |LineStarts(s, b)| <= i < |LineStarts(s, n)| ==> b < LineStarts(s, n)[i]
    decreases n
  {
    if b < n {
      StartsSplit(s, b, n - 1);
    }
  }

  /** The line is the number of line breaks before the position, the column the distance from
      the last of them; past the end of the text there is no position. */
  lemma PositionIsRight(s: string, b: nat)
    ensures PositionOf(FileOf(s), b) ==
            if b <= |s| then Ok(Position(LineBreaks(s, b), b - LineStartBefore(s, b))) else OutOfBounds
  {
    if b <= |s| {
      var starts, line := LineStarts(s, |s|), LineBreaks(s, b);
      StartsSplit(s, b, |s|);
      assert starts[line] == LineStarts(s, b)[line] == LineStartBefore(s, b) <= b;
      LineIsFound(FileOf(s), b, line);
    }
  }

  lemma LineIsFound(file: File, b: nat, line: nat)
    requires Sorted(file.lineStarts) && file.lineStarts != [] && file.lineStarts[0] == 0
    requires line < |file.lineStarts| && file.lineStarts[line] <= b
    requires line + 1 < |file.lineStarts| ==> b < file.lineStarts[line + 1]
    ensures LineIndex(file, b) == line
  {
  }

  ghost predicate Before(p: Position, q: Position) {
    p.line < q.line || (p.line == q.line && p.column < q.column)
  }

  /** Positions in the text are strictly increasing. */
  lemma PositionsIncrease(s: string, a: nat, b: nat)
    requires a < b <= |s|
    ensures PositionOf(FileOf(s), a).Ok? && PositionOf(FileOf(s), b).Ok?
    ensures Before(PositionOf(FileOf(s), a).value, PositionOf(FileOf(s), b).value)
    decreases b
  {
  }

  /** A position is undone by the table of line starts. */
  lemma PositionIsInvertible(s: string, b: nat)
    requires b <= |s|
    ensures var r := PositionOf(FileOf(s), b);
            r.Ok? && r.value.line < |FileOf(s).lineStarts| && FileOf(s).lineStarts[r.value.line] + r.value.column == b
  {
  }
}
