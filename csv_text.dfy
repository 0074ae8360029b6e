/** The line and cell handling both CSV readers share: components/CSVUploadFilter.tsx
    and components/StaffManager.tsx split on newlines, trim, drop blank lines,
    split on every comma and strip quote characters anywhere in a cell. It is
    not RFC 4180: a quoted comma still separates cells. */
module CsvText {
  import opened Text
  import opened Seqs

  function TrimAll(pieces: seq<string>): (r: seq<string>)
    ensures |r| == |pieces|
    ensures forall i :: 0 <= i < |pieces| ==> r[i] == Trim(pieces[i])
  {
    if pieces == [] then [] else [Trim(pieces[0])] + TrimAll(pieces[1..])
  }

  lemma {:induction false} TrimAllAppend(a: seq<string>, b: seq<string>)
    ensures TrimAll(a + b) == TrimAll(a) + TrimAll(b)
  {
    if a != [] {
      assert (a + b)[1..] == a[1..] + b;
      TrimAllAppend(a[1..], b);
    } else {
      assert a + b == b;
    }
  }

  predicate NonEmpty(line: string) {
    line != []
  }

  /** `text.split('\n').map(line => line.trim()).filter(line => line)`. */
  function Lines(text: string): (r: seq<string>)
    ensures forall line :: line in r ==> line != [] && IsTrimmed(line)
  {
    Filter(NonEmpty, TrimAll(Split(text, '\n')))
  }

  /** A text has no lines exactly when every newline-separated piece is blank. */
  lemma LinesEmpty(text: string)
    ensures Lines(text) == [] <==> forall piece :: piece in Split(text, '\n') ==> AllSpace(piece)
  {
    NoLinesIffBlank(Split(text, '\n'));
  }

  lemma {:induction false} NoLinesIffBlank(pieces: seq<string>)
    ensures Filter(NonEmpty, TrimAll(pieces)) == [] <==> forall piece :: piece in pieces ==> AllSpace(piece)
  {
    if pieces != [] {
      NoLinesIffBlank(pieces[1..]);
      assert TrimAll(pieces) == [Trim(pieces[0])] + TrimAll(pieces[1..]);
      assert TrimAll(pieces)[1..] == TrimAll(pieces[1..]);
      assert forall piece :: piece in pieces <==> piece == pieces[0] || piece in pieces[1..];
    }
  }

  /** Blank and white-space-only lines never matter: removing one between
      two others leaves the lines, and with them any parse of the text,
      unchanged. */
  lemma BlankLineIgnored(before: string, blank: string, after: string)
    requires AllSpace(blank) && '\n' !in blank
    ensures Lines(before + "\n" + blank + "\n" + after) == Lines(before + "\n" + after)
  {
    var a, b := Split(before, '\n'), Split(after, '\n');
    SplitAroundBlank(before, blank, after);
    assert before + "\n" + after == before + ['\n'] + after;
    SplitAppend(before, after, '\n');
    BlankPieceIgnored(a, blank, b);
  }

  /** A blank first line is ignored too. */
  lemma BlankFirstLineIgnored(blank: string, text: string)
    requires AllSpace(blank) && '\n' !in blank
    ensures Lines(blank + "\n" + text) == Lines(text)
  {
    assert blank + "\n" + text == blank + ['\n'] + text;
    SplitAppend(blank, text, '\n');
    assert Split(blank, '\n') == [blank];
    assert [] + ([blank] + Split(text, '\n')) == [blank] + Split(text, '\n');
    assert [] + Split(text, '\n') == Split(text, '\n');
    BlankPieceIgnored([], blank, Split(text, '\n'));
  }

  /** And so is a blank last line. */
  lemma BlankLastLineIgnored(text: string, blank: string)
    requires AllSpace(blank) && '\n' !in blank
    ensures Lines(text + "\n" + blank) == Lines(text)
  {
    assert text + "\n" + blank == text + ['\n'] + blank;
    SplitAppend(text, blank, '\n');
    assert Split(blank, '\n') == [blank];
    assert Split(text, '\n') + ([blank] + []) == Split(text, '\n') + [blank];
    assert Split(text, '\n') + [] == Split(text, '\n');
    BlankPieceIgnored(Split(text, '\n'), blank, []);
  }

  lemma SplitAroundBlank(before: string, blank: string, after: string)
    requires '\n' !in blank
    ensures Split(before + "\n" + blank + "\n" + after, '\n')
         == Split(before, '\n') + ([blank] + Split(after, '\n'))
  {
    assert before + "\n" + blank + "\n" + after == before + ['\n'] + (blank + ['\n'] + after);
    SplitAppend(before, blank + ['\n'] + after, '\n');
    SplitAppend(blank, after, '\n');
    assert Split(blank, '\n') == [blank];
  }

  lemma BlankPieceIgnored(a: seq<string>, blank: string, b: seq<string>)
    requires AllSpace(blank)
    ensures Filter(NonEmpty, TrimAll(a + ([blank] + b))) == Filter(NonEmpty, TrimAll(a + b))
  {
    var ta, tb := TrimAll(a), TrimAll(b);
    TrimAllAppend(a, [blank] + b);
    TrimAllAppend([blank], b);
    TrimAllAppend(a, b);
    assert TrimAll(a + ([blank] + b)) == ta + ([[]] + tb);
    FilterAppend(NonEmpty, ta, [[]] + tb);
    assert ([[]] + tb)[1..] == tb;
    assert Filter(NonEmpty, [[]] + tb) == Filter(NonEmpty, tb);
    FilterAppend(NonEmpty, ta, tb);
  }

  /** `line.split(',')`. */
  function Cells(line: string): (r: seq<string>)
    ensures |r| >= 1
  {
    Split(line, ',')
  }

  /** `cell.replace(/['"]/g, '').trim()`: no quote characters, no white-space ends. */
  function CleanCell(cell: string): (r: string)
    ensures '\'' !in r && '"' !in r
    ensures IsTrimmed(r)
  {
    var r := Trim(StripQuotes(cell));
    assert forall c :: c in r ==> c in StripQuotes(cell);
    r
  }

  /** The header line's cells, cleaned and lower-cased. */
  function HeaderCells(line: string): (r: seq<string>)
    ensures |r| == |Cells(line)|
    ensures forall i :: 0 <= i < |r| ==> r[i] == ToLower(CleanCell(Cells(line)[i]))
  {
    var cells := Cells(line);
    seq(|cells|, i requires 0 <= i < |cells| => ToLower(CleanCell(cells[i])))
  }
}
