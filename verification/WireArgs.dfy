/** Arguments of a control line: splitting at blanks, and decimal sizes. */
module WireArgs {
  import opened Common

  predicate Blank(c: char) {
    c == ' ' || c == '\t' || c == '\r' || c == '\n'
  }

  /** A stretch of the control line. */
  datatype Range = Range(lo: nat, hi: nat)

  /** The arguments still to be found from position `i` on; `start` is where the current one
      began, or -1. */
  function Ranges(arg: string, i: nat, start: int): (r: seq<Range>)
    requires i <= |arg| && -1 <= start < i
    ensures forall k :: 0 <= k < |r| ==> r[k].lo < r[k].hi <= |arg|
    decreases |arg| - i
  {
    if i == |arg| then (if start >= 0 then [Range(start, i)] else [])
    else if Blank(arg[i]) then
      (if start >= 0 then [Range(start, i)] else []) + Ranges(arg, i + 1, -1)
    else Ranges(arg, i + 1, if start < 0 then i else start)
  }

  method SplitArg(arg: string) returns (args: seq<Range>)
    ensures args == Ranges(arg, 0, -1)
  {
    args := [];
    var start := -1;
    for i := 0 to |arg|
      invariant -1 <= start < i
      invariant args + Ranges(arg, i, start) == Ranges(arg, 0, -1)
    {
      if Blank(arg[i]) {
        if start >= 0 {
          args := args + [Range(start, i)];
          start := -1;
        }
      } else if start < 0 {
        start := i;
      }
    }
    if start >= 0 {
      args := args + [Range(start, |arg|)];
    }
  }

  function Text(arg: string, r: Range): string
    requires r.lo <= r.hi <= |arg|
  {
    arg[r.lo..r.hi]
  }

  function Texts(arg: string, rs: seq<Range>): seq<string>
    requires forall k :: 0 <= k < |rs| ==> rs[k].lo <= rs[k].hi <= |arg|
  {
    if rs == [] then [] else [Text(arg, rs[0])] + Texts(arg, rs[1..])
  }

  /** The arguments themselves. */
  function Args(arg: string): seq<string> {
    Texts(arg, Ranges(arg, 0, -1))
  }

  // ---------- what splitting undoes ----------

  predicate Word(w: string) {
    w != "" && forall i :: 0 <= i < |w| ==> !Blank(w[i])
  }

  function Spaced(ws: seq<string>): string {
    if ws == [] then "" else if |ws| == 1 then ws[0] else ws[0] + " " + Spaced(ws[1..])
  }

  /** Reading through a word that began at `start`. */
  lemma {:induction false} RangesWord(arg: string, i: nat, start: nat, end: nat)
    requires start < i <= end <= |arg|
    requires forall j :: i <= j < end ==> !Blank(arg[j])
    ensures Ranges(arg, i, start) == Ranges(arg, end, start)
    decreases end - i
  {
    if i < end {
      RangesWord(arg, i + 1, start, end);
    }
  }

  /** A word followed by a blank, or by nothing, is the next range. */
  lemma WordRange(arg: string, i: nat, end: nat)
    requires i < end <= |arg| && (forall j :: i <= j < end ==> !Blank(arg[j])) && (end < |arg| ==> Blank(arg[end]))
    ensures Ranges(arg, i, -1) == [Range(i, end)] + (if end == |arg| then [] else Ranges(arg, end + 1, -1))
  {
    RangesWord(arg, i + 1, i, end);
  }

  lemma TextsFirst(arg: string, r: Range, rs: seq<Range>)
    requires r.lo <= r.hi <= |arg| && forall k :: 0 <= k < |rs| ==> rs[k].lo <= rs[k].hi <= |arg|
    ensures Texts(arg, [r] + rs) == [Text(arg, r)] + Texts(arg, rs)
  {
    assert ([r] + rs)[1..] == rs;
  }

  /** The first word sits at `i`, and the rest of the line behind it. */
  lemma SpacedFirst(ws: seq<string>, arg: string, i: nat)
    requires ws != [] && i <= |arg| && arg[i..] == Spaced(ws)
    ensures i + |ws[0]| <= |arg| && arg[i..i + |ws[0]|] == ws[0]
    ensures |ws| == 1 ==> i + |ws[0]| == |arg|
    ensures |ws| > 1 ==> i + |ws[0]| < |arg| && arg[i + |ws[0]|] == ' ' && arg[i + |ws[0]| + 1..] == Spaced(ws[1..])
  {
    var w := ws[0];
    var tail := arg[i..];
    assert |tail| == |arg| - i && tail[..|w|] == w;
    assert arg[i..i + |w|] == tail[..|w|];
    if |ws| > 1 {
      assert tail == w + " " + Spaced(ws[1..]);
      assert arg[i + |w|] == tail[|w|] && arg[i + |w| + 1..] == tail[|w| + 1..];
    }
  }

  lemma FirstWordRange(ws: seq<string>, arg: string, i: nat)
    requires ws != [] && i <= |arg| && arg[i..] == Spaced(ws) && Word(ws[0])
    ensures var end := i + |ws[0]|;
            && end <= |arg| && Ranges(arg, i, -1) == [Range(i, end)] + (if |ws| == 1 then []
                else Ranges(arg, end + 1, -1))
  {
    var end := i + |ws[0]|;
    SpacedFirst(ws, arg, i);
    assert forall j :: i <= j < end ==> arg[j] == arg[i..end][j - i];
    WordRange(arg, i, end);
  }

  /** The arguments found in the line from `i` on. */
  function LineTexts(arg: string, i: nat): seq<string>
    requires i <= |arg|
  {
    Texts(arg, Ranges(arg, i, -1))
  }

  lemma TextsOf(arg: string, i: nat, end: nat, w: string, rs: seq<Range>)
    requires i <= end <= |arg| && arg[i..end] == w && forall k :: 0 <= k < |rs| ==> rs[k].lo <= rs[k].hi <= |arg|
    requires Ranges(arg, i, -1) == [Range(i, end)] + rs
    ensures LineTexts(arg, i) == [w] + Texts(arg, rs)
  {
    TextsFirst(arg, Range(i, end), rs);
  }

  /** The first text is the first word, and the other texts come from the line behind it. */
  lemma FirstText(ws: seq<string>, arg: string, i: nat)
    requires ws != [] && i <= |arg| && arg[i..] == Spaced(ws) && Word(ws[0])
    ensures |ws| > 1 ==> i + |ws[0]| < |arg| && arg[i + |ws[0]| + 1..] == Spaced(ws[1..])
    ensures |ws| == 1 ==> LineTexts(arg, i) == [ws[0]]
    ensures |ws| > 1 ==> LineTexts(arg, i) == [ws[0]] + LineTexts(arg, i + |ws[0]| + 1)
  {
    var end := i + |ws[0]|;
    SpacedFirst(ws, arg, i);
    FirstWordRange(ws, arg, i);
    if |ws| == 1 {
      TextsOf(arg, i, end, ws[0], []);
      ConcatNothing([ws[0]]);
    } else {
      TextsOf(arg, i, end, ws[0], Ranges(arg, end + 1, -1));
    }
  }

  predicate AllWords(ws: seq<string>) {
    forall k :: 0 <= k < |ws| ==> Word(ws[k])
  }

  lemma OtherWords(ws: seq<string>)
    requires ws != [] && AllWords(ws)
    ensures Word(ws[0]) && AllWords(ws[1..])
  {
  }

  lemma {:induction false} SplitSpacedAt(ws: seq<string>, arg: string, i: nat)
    requires i <= |arg| && arg[i..] == Spaced(ws) && AllWords(ws)
    ensures LineTexts(arg, i) == ws
    decreases |ws|
  {
    if ws != [] {
      OtherWords(ws);
      FirstText(ws, arg, i);
      if |ws| > 1 {
        SplitSpacedAt(ws[1..], arg, i + |ws[0]| + 1);
        HeadTail(ws);
      }
    }
  }

  /** Words put together with blanks come apart again. */
  lemma SplitSpaced(ws: seq<string>)
    requires AllWords(ws)
    ensures Args(Spaced(ws)) == ws
  {
    assert Spaced(ws)[0..] == Spaced(ws);
    SplitSpacedAt(ws, Spaced(ws), 0);
  }

  // ---------- decimal numbers ----------

  function Digit(c: char): int {
    c as int - '0' as int
  }

  predicate IsDigit(c: char) {
    '0' <= c <= '9'
  }

  /** Value of the digits from `i` on, on top of `n`; -1 for anything that is not a digit. */
  function SizeFrom(d: string, i: nat, n: nat): (r: int)
    requires i <= |d|
    ensures r >= -1
    decreases |d| - i
  {
    if i == |d| then n
    else if !IsDigit(d[i]) then -1
    else SizeFrom(d, i + 1, n * 10 + Digit(d[i]))
  }

  function SizeOf(d: string): (r: int)
    ensures r >= -1
  {
    if d == "" then -1 else SizeFrom(d, 0, 0)
  }

  method ParseSize(d: string) returns (n: int)
    ensures n == SizeOf(d)
  {
    if |d| == 0 {
      return -1;
    }
    n := 0;
    for i := 0 to |d|
      invariant 0 <= n && SizeFrom(d, i, n) == SizeOf(d)
    {
      if !IsDigit(d[i]) {
        return -1;
      }
      n := n * 10 + Digit(d[i]);
    }
  }

  /** Decimal notation. */
  function Decimal(n: nat): (s: string)
    ensures s != "" && forall i :: 0 <= i < |s| ==> IsDigit(s[i])
  {
    if n < 10 then [('0' as int + n) as char] else Decimal(n / 10) + [('0' as int + n % 10) as char]
  }

  lemma {:induction false} SizeFromAppend(d: string, c: char, i: nat, n: nat)
    requires i <= |d| && IsDigit(c) && forall j :: 0 <= j < |d| ==> IsDigit(d[j])
    ensures SizeFrom(d + [c], i, n) == SizeFrom(d, i, n) * 10 + Digit(c)
    decreases |d| - i
  {
    if i < |d| {
      SizeFromAppend(d, c, i + 1, n * 10 + Digit(d[i]));
    }
  }

  /** Printing a number and reading it back. */
  lemma {:induction false} SizeOfDecimal(n: nat)
    ensures SizeOf(Decimal(n)) == n
  {
    if n < 10 {
      var d := Decimal(n);
      assert Digit(d[0]) == n && SizeFrom(d, 1, n) == n;
    } else {
      SizeOfDecimal(n / 10);
      SizeFromAppend(Decimal(n / 10), ('0' as int + n % 10) as char, 0, 0);
    }
  }
}
