/** The JavaScript string operations the core uses (trim, split, includes,
    toLowerCase, replace with a quote or white-space pattern, padStart,
    String(n)), each defined on `seq<char>` with the facts the rest of the
    model needs about it. */
module Text {

  /** ECMAScript WhiteSpace and LineTerminator code points: exactly what
      `String.prototype.trim` removes and what the regular-expression class `\s` matches. */
  predicate IsSpace(c: char) {
    || c == '\t' || c == '\n' || c == '\U{000B}' || c == '\U{000C}' || c == '\r' || c == ' '
    || c == '\U{00A0}' || c == '\U{1680}' || ('\U{2000}' <= c <= '\U{200A}')
    || c == '\U{2028}' || c == '\U{2029}' || c == '\U{202F}' || c == '\U{205F}'
    || c == '\U{3000}' || c == '\U{FEFF}'
  }

  predicate AllSpace(s: string) {
    forall i :: 0 <= i < |s| ==> IsSpace(s[i])
  }

  /** No white space at either end: what `trim` guarantees of its result. */
  predicate IsTrimmed(s: string) {
    s == [] || (!IsSpace(s[0]) && !IsSpace(s[|s| - 1]))
  }

  /** The index of the first character at or after `i` that is not white
      space, or `|s|` when there is none. */
  function FirstNonSpace(s: string, i: nat): (k: nat)
    requires i <= |s|
    ensures i <= k <= |s|
    ensures AllSpace(s[i..k])
    ensures k < |s| ==> !IsSpace(s[k])
    decreases |s| - i
  {
    if i < |s| && IsSpace(s[i]) then
      var k := FirstNonSpace(s, i + 1);
      assert s[i..k] == [s[i]] + s[i + 1..k];
      k
    else i
  }

  /** The end of `s[lo..j]` once its white-space tail is dropped: the least
      `k` from which `s[k..j]` is all white space. */
  function LastNonSpace(s: string, lo: nat, j: nat): (k: nat)
    requires lo <= j <= |s|
    ensures lo <= k <= j
    ensures AllSpace(s[k..j])
    ensures k > lo ==> !IsSpace(s[k - 1])
    decreases j
  {
    if j > lo && IsSpace(s[j - 1]) then
      var k := LastNonSpace(s, lo, j - 1);
      assert s[k..j] == s[k..j - 1] + [s[j - 1]];
      k
    else j
  }

  /** `String.prototype.trim`: the result is the input without its white-space
      ends; it is empty exactly when the input is all white space, and every
      character in it comes from the input. */
  function Trim(s: string): (r: string)
    ensures IsTrimmed(r)
    ensures r == [] <==> AllSpace(s)
    ensures forall c :: c in r ==> c in s
  {
    var a := FirstNonSpace(s, 0);
    var b := LastNonSpace(s, a, |s|);
    TrimBounds(s, a, b);
    s[a..b]
  }

  lemma TrimBounds(s: string, a: nat, b: nat)
    requires a <= b <= |s|
    requires AllSpace(s[0..a]) && (a < |s| ==> !IsSpace(s[a]))
    requires AllSpace(s[b..|s|]) && (b > a ==> !IsSpace(s[b - 1]))
    ensures IsTrimmed(s[a..b])
    ensures s[a..b] == [] <==> AllSpace(s)
    ensures forall c :: c in s[a..b] ==> c in s
  {
    assert b < |s| ==> s[b..|s|][0] == s[b];
    if a < b {
      assert s[a..b][0] == s[a] && s[a..b][b - a - 1] == s[b - 1];
      assert !IsSpace(s[a]);
    } else if a == |s| {
      assert s[0..a] == s;
    }
    forall c | c in s[a..b] ensures c in s {
      var i :| 0 <= i < b - a && s[a..b][i] == c;
      assert s[a + i] == c;
    }
  }

  lemma TrimOfTrimmed(s: string)
    requires IsTrimmed(s)
    ensures Trim(s) == s
  {
    if s != [] {
      assert FirstNonSpace(s, 0) == 0;
      assert LastNonSpace(s, 0, |s|) == |s|;
    }
  }

  predicate StartsWith(s: string, prefix: string) {
    |prefix| <= |s| && s[..|prefix|] == prefix
  }

  predicate EndsWith(s: string, suffix: string) {
    |suffix| <= |s| && s[|s| - |suffix|..] == suffix
  }

  /** `String.prototype.includes`: `sub` occurs somewhere in `s`. */
  predicate Contains(s: string, sub: string)
    decreases |s|
  {
    StartsWith(s, sub) || (s != [] && Contains(s[1..], sub))
  }

  /** `sub` sits in `s` at offset `i`. */
  predicate OccursAt(s: string, sub: string, i: int) {
    0 <= i <= |s| - |sub| && s[i..i + |sub|] == sub
  }

  /** The witness characterisation of `Contains`: it holds exactly when `sub`
      sits at some offset of `s`. */
  lemma {:induction false} ContainsAt(s: string, sub: string)
    ensures Contains(s, sub) <==> exists i :: OccursAt(s, sub, i)
    decreases |s|
  {
    if StartsWith(s, sub) {
      assert OccursAt(s, sub, 0);
    } else if s != [] {
      ContainsAt(s[1..], sub);
      if Contains(s, sub) {
        var i :| OccursAt(s[1..], sub, i);
        assert s[1..][i..i + |sub|] == s[i + 1..i + 1 + |sub|];
        assert OccursAt(s, sub, i + 1);
      } else if i :| OccursAt(s, sub, i) {
        assert i != 0;
        assert s[1..][i - 1..i - 1 + |sub|] == s[i..i + |sub|];
        assert OccursAt(s[1..], sub, i - 1);
      }
    }
  }

  /** A non-empty `sub` is contained only in a string at least as long. */
  lemma {:induction false} ContainsNeedsRoom(s: string, sub: string)
    requires Contains(s, sub)
    ensures |sub| <= |s|
  {
    if !StartsWith(s, sub) {
      ContainsNeedsRoom(s[1..], sub);
    }
  }

  function LowerChar(c: char): char {
    if 'A' <= c <= 'Z' then (c as int + 32) as char else c
  }

  /** `String.prototype.toLowerCase` on the ASCII letters. */
  function ToLower(s: string): (r: string)
    ensures |r| == |s|
  {
    seq(|s|, i requires 0 <= i < |s| => LowerChar(s[i]))
  }

  /** The first index of `c` in `s`, or `|s|` when it does not occur. */
  function IndexOf(s: string, c: char): (k: nat)
    ensures k <= |s|
    ensures c !in s[..k]
    ensures k < |s| ==> s[k] == c
  {
    if s == [] then 0
    else if s[0] == c then 0
    else
      var k' := IndexOf(s[1..], c);
      assert s[..1 + k'] == [s[0]] + s[1..][..k'];
      1 + k'
  }

  /** `IndexOf` is pinned down by where `c` first occurs. */
  lemma IndexOfIs(s: string, c: char, k: nat)
    requires k <= |s| && c !in s[..k] && (k < |s| ==> s[k] == c)
    ensures IndexOf(s, c) == k
  {
    var j := IndexOf(s, c);
    assert forall i :: 0 <= i < k ==> s[i] != c by {
      forall i | 0 <= i < k ensures s[i] != c {
        assert s[..k][i] == s[i];
      }
    }
    assert forall i :: 0 <= i < j ==> s[i] != c by {
      forall i | 0 <= i < j ensures s[i] != c {
        assert s[..j][i] == s[i];
      }
    }
  }

  /** `String.prototype.split` with a one-character separator: never empty, and
      no piece holds the separator. */
  function Split(s: string, sep: char): (r: seq<string>)
    ensures |r| >= 1
    ensures forall piece :: piece in r ==> sep !in piece
    decreases |s|
  {
    var k := IndexOf(s, sep);
    if k == |s| then [s] else [s[..k]] + Split(s[k + 1..], sep)
  }

  /** `Array.prototype.join` with a one-character separator. */
  function Join(pieces: seq<string>, sep: char): string
    requires |pieces| >= 1
  {
    if |pieces| == 1 then pieces[0] else pieces[0] + [sep] + Join(pieces[1..], sep)
  }

  /** Splitting loses nothing: joining the pieces back gives the input. */
  lemma {:induction false} JoinSplit(s: string, sep: char)
    ensures Join(Split(s, sep), sep) == s
    decreases |s|
  {
    var k := IndexOf(s, sep);
    if k < |s| {
      var rest := Split(s[k + 1..], sep);
      assert Split(s, sep) == [s[..k]] + rest;
      JoinSplit(s[k + 1..], sep);
      assert Join([s[..k]] + rest, sep) == s[..k] + [sep] + Join(rest, sep);
      assert s == s[..k] + [sep] + s[k + 1..];
    }
  }

  /** And the other way round: pieces free of the separator come back from a join. */
  lemma {:induction false} SplitJoin(pieces: seq<string>, sep: char)
    requires |pieces| >= 1
    requires forall piece :: piece in pieces ==> sep !in piece
    ensures Split(Join(pieces, sep), sep) == pieces
  {
    assert pieces[0] in pieces;
    SplitWhole(pieces[0], sep);
    if |pieces| > 1 {
      assert forall piece :: piece in pieces[1..] ==> piece in pieces;
      SplitJoin(pieces[1..], sep);
      assert Join(pieces, sep) == pieces[0] + [sep] + Join(pieces[1..], sep);
      SplitAppend(pieces[0], Join(pieces[1..], sep), sep);
      assert pieces == [pieces[0]] + pieces[1..];
    }
  }

  /** `Split` leaves a text without the separator whole. */
  lemma SplitWhole(s: string, sep: char)
    requires sep !in s
    ensures Split(s, sep) == [s]
  {
    IndexOfIs(s, sep, |s|);
    assert s[..|s|] == s;
  }

  /** A separator in the middle of a string splits it into the pieces of either side. */
  lemma {:induction false} SplitAppend(a: string, b: string, sep: char)
    ensures Split(a + [sep] + b, sep) == Split(a, sep) + Split(b, sep)
    decreases |a|
  {
    var s := a + [sep] + b;
    var k := IndexOf(a, sep);
    if k < |a| {
      assert s[..k] == a[..k];
      IndexOfIs(s, sep, k);
      assert s[k + 1..] == a[k + 1..] + [sep] + b;
      SplitAppend(a[k + 1..], b, sep);
    } else {
      assert s[..|a|] == a;
      IndexOfIs(s, sep, |a|);
      assert s[|a| + 1..] == b;
    }
  }

  /** Every `'` and `"` removed (`replace(/['"]/g, '')`). */
  function StripQuotes(s: string): (r: string)
    ensures '\'' !in r && '"' !in r
    ensures forall c :: c in r ==> c in s
  {
    if s == [] then []
    else (if s[0] == '\'' || s[0] == '"' then [] else [s[0]]) + StripQuotes(s[1..])
  }

  /** Every maximal run of white space replaced by `rep` (`replace(/\s+/g, rep)`). */
  function ReplaceSpaceRuns(s: string, rep: string): (r: string)
    ensures (forall c :: c in rep ==> !IsSpace(c)) ==> forall c :: c in r ==> !IsSpace(c)
    decreases |s|
  {
    if s == [] then []
    else if IsSpace(s[0]) then rep + ReplaceSpaceRuns(s[FirstNonSpace(s, 1)..], rep)
    else [s[0]] + ReplaceSpaceRuns(s[1..], rep)
  }

  /** `s.slice(0, n)`. */
  function Prefix(s: string, n: nat): (r: string)
    ensures |r| <= n && StartsWith(s, r)
    ensures |s| >= n ==> |r| == n
  {
    if |s| <= n then s else s[..n]
  }

  /** `s.padStart(width, fill)`. */
  function PadStart(s: string, width: nat, fill: char): (r: string)
    ensures |r| == if |s| >= width then |s| else width
    ensures EndsWith(r, s)
  {
    if |s| >= width then s else seq(width - |s|, _ => fill) + s
  }

  predicate IsDigit(c: char) {
    '0' <= c <= '9'
  }

  function DigitChar(d: nat): (c: char)
    requires d < 10
    ensures IsDigit(c)
  {
    ('0' as int + d) as char
  }

  /** `String(n)` for a natural number: its decimal digits. */
  function NatToString(n: nat): (r: string)
    ensures |r| >= 1
    ensures forall c :: c in r ==> IsDigit(c)
    ensures n >= 10 ==> |r| >= 2
  {
    if n < 10 then [DigitChar(n)] else NatToString(n / 10) + [DigitChar(n % 10)]
  }

  /** Distinct numbers print differently. */
  lemma {:induction false} NatToStringInjective(a: nat, b: nat)
    requires NatToString(a) == NatToString(b)
    ensures a == b
  {
    if a >= 10 && b >= 10 {
      var sa, sb := NatToString(a / 10), NatToString(b / 10);
      assert sa == NatToString(a)[..|NatToString(a)| - 1];
      assert sb == NatToString(b)[..|NatToString(b)| - 1];
      NatToStringInjective(a / 10, b / 10);
      assert DigitChar(a % 10) == DigitChar(b % 10);
    }
  }
}
