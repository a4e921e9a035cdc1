/** `iCurl::headers2Array`: the raw response header block, split on CRLF,
    as a PHP array from header name to value. The first line (the status
    line) goes under the reserved key `http_status`; every later non-empty
    line is split at its first ": ". */
module ResponseHeaders {
  import opened PhpValues
  import opened PhpStrings

  const CRLF: string := "\r\n"
  const StatusName: string := "http_status"

  /** `explode("\r\n", $header)`. */
  function Lines(block: string): (r: seq<string>)
    ensures |r| >= 1
  {
    Explode(block, CRLF)
  }

  /** `list($key, $value) = explode(': ', $line, 2)`: a line without ": "
      leaves `$value` null, written `None` here. */
  function LineEntry(line: string): (Key, Option<string>) {
    var (name, value) := SplitOnce(line, ": ");
    (StrKey(name), value)
  }

  /** A later line that the loop stores under `name`: it is not empty in
      PHP's sense (`""` and `"0"` are empty) and its text before the first
      ": " is `name`. */
  predicate Named(line: string, name: string) {
    TruthyString(line) && SplitOnce(line, ": ").0 == name
  }

  /** Line `j` is the last of `lines` named `name`. */
  predicate LastNamed(lines: seq<string>, j: nat, name: string)
    requires j < |lines|
  {
    Named(lines[j], name) && forall j' :: j < j' < |lines| ==> !Named(lines[j'], name)
  }

  /** The assignments the loop performs for the lines `lines`, in order. */
  function LineEntries(lines: seq<string>): seq<(Key, Option<string>)>
    decreases |lines|
  {
    if lines == [] then []
    else
      var last := lines[|lines| - 1];
      LineEntries(lines[..|lines| - 1]) + (if TruthyString(last) then [LineEntry(last)] else [])
  }

  /** The array `headers2Array($block)` returns. */
  function HeaderArray(block: string): PhpArray<Option<string>> {
    var lines := Lines(block);
    PutAll([(StrKey(StatusName), Some(lines[0]))], LineEntries(lines[1..]))
  }

  lemma LineEntriesSnoc(lines: seq<string>, line: string)
    ensures LineEntries(lines + [line]) == LineEntries(lines) + (if TruthyString(line) then [LineEntry(line)] else [])
  {
    assert (lines + [line])[..|lines|] == lines;
  }

  /** One iteration of the loop of `headers2Array`, on the array values. */
  lemma StoreLine(first: PhpArray<Option<string>>, lines: seq<string>, line: string)
    ensures PutAll(first, LineEntries(lines + [line])) ==
      if TruthyString(line)
      then Put(PutAll(first, LineEntries(lines)), StrKey(SplitOnce(line, ": ").0), SplitOnce(line, ": ").1)
      else PutAll(first, LineEntries(lines))
  {
    LineEntriesSnoc(lines, line);
    if TruthyString(line) {
      var e := LineEntry(line);
      assert e == (StrKey(SplitOnce(line, ": ").0), SplitOnce(line, ": ").1);
      assert LineEntries(lines + [line]) == LineEntries(lines) + [e];
      PutAllSnoc(first, LineEntries(lines), e);
      assert PutAll(first, LineEntries(lines + [line])) == Put(PutAll(first, LineEntries(lines)), e.0, e.1);
    } else {
      assert LineEntries(lines + [line]) == LineEntries(lines);
    }
  }

  /** `iCurl::headers2Array`. */
  method Headers2Array(block: string) returns (headers: PhpArray<Option<string>>)
    ensures headers == HeaderArray(block)
  {
    var lines := Explode(block, CRLF);
    headers := Put([], StrKey(StatusName), Some(lines[0]));
    ghost var first := headers;
    lines := lines[1..];
    assert lines == LaterLines(block);
    var i := 0;
    while i < |lines|
      invariant 0 <= i <= |lines|
      invariant headers == PutAll(first, LineEntries(lines[..i]))
    {
      var line := lines[i];
      assert lines[..i + 1] == lines[..i] + [line];
      StoreLine(first, lines[..i], line);
      if TruthyString(line) {
        var split := SplitOnce(line, ": ");
        headers := Put(headers, StrKey(split.0), split.1);
      }
      i := i + 1;
    }
    assert lines[..|lines|] == lines;
    assert first == [(StrKey(StatusName), Some(Lines(block)[0]))];
  }

  /** The index of the last of `lines` named `name`, if any. */
  function LastNamedIndex(lines: seq<string>, name: string): (r: Option<nat>)
    ensures r.Some? ==> r.value < |lines|
  {
    if lines == [] then None
    else if Named(lines[|lines| - 1], name) then Some(|lines| - 1)
    else LastNamedIndex(lines[..|lines| - 1], name)
  }

  /** `LastNamedIndex` finds nothing exactly when no line is named `name`,
      and otherwise the last line that is. */
  lemma {:induction false} LastNamedIndexSpec(lines: seq<string>, name: string)
    ensures LastNamedIndex(lines, name).None? <==> forall j :: 0 <= j < |lines| ==> !Named(lines[j], name)
    ensures LastNamedIndex(lines, name).Some? ==> LastNamed(lines, LastNamedIndex(lines, name).value, name)
    decreases |lines|
  {
    if lines != [] && !Named(lines[|lines| - 1], name) {
      var pre := lines[..|lines| - 1];
      LastNamedIndexSpec(pre, name);
      assert forall j :: 0 <= j < |pre| ==> pre[j] == lines[j];
    }
  }

  /** The loop's assignments for `lines` leave under `name` the value of
      the last line named `name`, and nothing when there is none. */
  lemma {:induction false} LastLineWins(lines: seq<string>, name: string)
    ensures LastFor(LineEntries(lines), StrKey(name)) ==
      match LastNamedIndex(lines, name)
      case Some(j) => Some(SplitOnce(lines[j], ": ").1)
      case None => None
    decreases |lines|
  {
    if lines != [] {
      var pre := lines[..|lines| - 1];
      var last := lines[|lines| - 1];
      var tail := if TruthyString(last) then [LineEntry(last)] else [];
      LastLineWins(pre, name);
      LastForConcat(LineEntries(pre), tail, StrKey(name));
      if Named(last, name) {
        assert LastFor(tail, StrKey(name)) == Some(SplitOnce(last, ": ").1);
      } else {
        assert LastFor(tail, StrKey(name)).None?;
        if LastNamedIndex(pre, name).Some? {
          assert pre[LastNamedIndex(pre, name).value] == lines[LastNamedIndex(pre, name).value];
        }
      }
    }
  }

  /** The later lines of the block: all but the status line. */
  function LaterLines(block: string): seq<string> {
    Lines(block)[1..]
  }

  /** The first line of the block, even when empty, is stored under
      `http_status`, and stays there unless a later line is itself named
      `http_status`. That first line is the text before the first CRLF. */
  lemma StatusLineKept(block: string)
    ensures LastNamedIndex(LaterLines(block), StatusName).None? ==>
      Lookup(HeaderArray(block), StrKey(StatusName)) == Some(Some(Lines(block)[0]))
    ensures var first := Lines(block)[0];
      !Contains(first, CRLF) && (block == first || block[..|first| + 2] == first + CRLF)
  {
    var lines := Lines(block);
    LastLineWins(lines[1..], StatusName);
    ExplodeJoin(block, CRLF);
    ExplodePieces(block, CRLF);
    if |lines| > 1 {
      assert block == lines[0] + CRLF + Join(lines[1..], CRLF);
    }
  }

  /** Every other header name: its value is the text after the first ": "
      of the last later line carrying it (so a repeated name keeps the last
      value, and further ": " stay in the value), and it is absent when no
      later line carries it. */
  lemma HeaderLookup(block: string, name: string)
    requires name != StatusName
    ensures Lookup(HeaderArray(block), StrKey(name)) ==
      match LastNamedIndex(LaterLines(block), name)
      case Some(j) => Some(SplitOnce(LaterLines(block)[j], ": ").1)
      case None => None
  {
    LastLineWins(LaterLines(block), name);
  }
}
