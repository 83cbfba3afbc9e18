/** The Python string, file and path builtins the two workflow scripts rely on:
    `str.strip`, `str.split(",", 1)`, `readlines`/`writelines` on a text file,
    `str(int)`, `str.isdigit`/`int(s)`, `str.lower`, and `posixpath.join`/`basename`. */
module Text {

  // ---------------------------------------------------------------- whitespace

  /** `str.isspace` of a one-character string (Python's whitespace set). */
  const Spaces: set<char> :=
    {'\t', '\n', '\U{B}', '\U{C}', '\r', '\U{1C}', '\U{1D}', '\U{1E}', '\U{1F}', ' ', '\U{85}', '\U{A0}', '\U{1680}',
     '\U{2000}', '\U{2001}', '\U{2002}', '\U{2003}', '\U{2004}', '\U{2005}', '\U{2006}', '\U{2007}', '\U{2008}',
     '\U{2009}', '\U{200A}', '\U{2028}', '\U{2029}', '\U{202F}', '\U{205F}', '\U{3000}'}

  predicate IsSpace(c: char) {
    c in Spaces
  }

  /** Index of the first character of `s` that is not whitespace (|s| if none). */
  function StripStart(s: string): (i: nat)
    ensures i <= |s|
  {
    if |s| > 0 && IsSpace(s[0]) then 1 + StripStart(s[1..]) else 0
  }

  lemma {:induction false} StripStartMeaning(s: string)
    ensures forall k :: 0 <= k < StripStart(s) ==> IsSpace(s[k])
    ensures StripStart(s) < |s| ==> !IsSpace(s[StripStart(s)])
  {
    if |s| > 0 && IsSpace(s[0]) {
      StripStartMeaning(s[1..]);
    }
  }

  /** End of `s` once trailing whitespace is cut off, never going below `lo`. */
  function StripEnd(s: string, lo: nat): (j: nat)
    requires lo <= |s|
    ensures lo <= j <= |s|
    decreases |s|
  {
    if |s| > lo && IsSpace(s[|s| - 1]) then StripEnd(s[..|s| - 1], lo) else |s|
  }

  lemma {:induction false} StripEndMeaning(s: string, lo: nat)
    requires lo <= |s|
    ensures forall k :: StripEnd(s, lo) <= k < |s| ==> IsSpace(s[k])
    ensures StripEnd(s, lo) > lo ==> !IsSpace(s[StripEnd(s, lo) - 1])
    decreases |s|
  {
    if |s| > lo && IsSpace(s[|s| - 1]) {
      StripEndMeaning(s[..|s| - 1], lo);
    }
  }

  /** `s.strip()`: the slice of `s` between its leading and its trailing whitespace. */
  function Strip(s: string): string {
    var i := StripStart(s);
    s[i..StripEnd(s, i)]
  }

  /** The stripped text is a slice of the input that neither starts nor ends with whitespace. */
  lemma StripMeaning(s: string)
    ensures var r := Strip(s);
      && |r| <= |s|
      && (|r| > 0 ==> !IsSpace(r[0]) && !IsSpace(r[|r| - 1]))
      && r == s[StripStart(s)..StripStart(s) + |r|]
  {
    StripStartMeaning(s);
    StripEndMeaning(s, StripStart(s));
  }

  /** Stripping a string that already starts and ends with non-whitespace, followed by
      one whitespace character, gives the string back. */
  lemma StripTrailingSpace(s: string, c: char)
    requires |s| > 0 && !IsSpace(s[0]) && !IsSpace(s[|s| - 1])
    requires IsSpace(c)
    ensures Strip(s + [c]) == s
  {
    var t := s + [c];
    assert StripStart(t) == 0;
    StripEndMeaning(t, 0);
    assert t[..|t| - 1] == s;
    assert StripEnd(s, 0) == |s|;
    assert StripEnd(t, 0) == |s|;
  }

  /** If the only newline of `s` is its last character, the stripped text holds no newline. */
  lemma StripDropsFinalNewline(s: string)
    requires forall k :: 0 <= k < |s| - 1 ==> s[k] != '\n'
    ensures '\n' !in Strip(s)
  {
    var i := StripStart(s);
    var j := StripEnd(s, i);
    var r := Strip(s);
    StripMeaning(s);
    StripEndMeaning(s, i);
    forall p | 0 <= p < |r| ensures r[p] != '\n' {
      assert r[p] == s[i + p];
    }
  }

  /** `s.find(c)`, with |s| standing for "not found". */
  function IndexOf(s: string, c: char): (k: nat)
    ensures k <= |s|
  {
    if s == [] then 0 else if s[0] == c then 0 else 1 + IndexOf(s[1..], c)
  }

  lemma {:induction false} IndexOfMeaning(s: string, c: char)
    ensures forall i :: 0 <= i < IndexOf(s, c) ==> s[i] != c
    ensures IndexOf(s, c) < |s| ==> s[IndexOf(s, c)] == c
  {
    if s != [] && s[0] != c {
      IndexOfMeaning(s[1..], c);
    }
  }

  // ---------------------------------------------------------------- lines of a text file

  /** Position just past the first newline of `s`, or |s| when it has none. */
  function LineEnd(s: string): (e: nat)
    ensures e <= |s|
    ensures s != [] ==> e > 0
    ensures forall k :: 0 <= k < e - 1 ==> s[k] != '\n'
    ensures 0 < e < |s| ==> s[e - 1] == '\n'
  {
    if s == [] then 0 else if s[0] == '\n' then 1 else 1 + LineEnd(s[1..])
  }

  /** A line as `readlines` returns it: non-empty, with a newline at most at its end. */
  predicate IsLine(l: string) {
    |l| > 0 && forall k :: 0 <= k < |l| - 1 ==> l[k] != '\n'
  }

  /** What `readlines` can return: lines, each but the last ending in a newline. */
  predicate WellFormed(ls: seq<string>) {
    && (forall i :: 0 <= i < |ls| ==> IsLine(ls[i]))
    && (forall i :: 0 <= i < |ls| - 1 ==> ls[i][|ls[i]| - 1] == '\n')
  }

  /** `f.readlines()` on a file whose (newline-translated) text is `s`. */
  function Lines(s: string): (ls: seq<string>)
    ensures WellFormed(ls)
    decreases |s|
  {
    if s == [] then []
    else
      var e := LineEnd(s);
      var rest := Lines(s[e..]);
      assert rest != [] ==> s[e..] != [] && s[e - 1] == '\n';
      [s[..e]] + rest
  }

  /** `f.writelines(ls)`: the lines written one after the other. */
  function Join(ls: seq<string>): string {
    if ls == [] then "" else ls[0] + Join(ls[1..])
  }

  /** Writing back what `readlines` returned reproduces the file. */
  lemma {:induction false} JoinLines(s: string)
    ensures Join(Lines(s)) == s
    decreases |s|
  {
    if s != [] {
      var e := LineEnd(s);
      JoinLines(s[e..]);
      assert s[..e] + s[e..] == s;
    }
  }

  lemma {:induction false} LineEndOfLine(l: string, t: string)
    requires IsLine(l)
    requires l[|l| - 1] == '\n' || t == []
    ensures LineEnd(l + t) == |l|
    decreases |l|
  {
    if |l| > 1 {
      assert (l + t)[1..] == l[1..] + t;
      LineEndOfLine(l[1..], t);
    }
  }

  /** Reading back what `writelines` wrote gives the same lines, as long as every line
      but the last ends in its one newline. */
  lemma {:induction false} LinesJoin(ls: seq<string>)
    requires WellFormed(ls)
    ensures Lines(Join(ls)) == ls
  {
    if ls != [] {
      var rest := ls[1..];
      assert WellFormed(rest) by {
        forall i | 0 <= i < |rest| ensures IsLine(rest[i]) { assert rest[i] == ls[i + 1]; }
        forall i | 0 <= i < |rest| - 1 ensures rest[i][|rest[i]| - 1] == '\n' { assert rest[i] == ls[i + 1]; }
      }
      LinesJoin(rest);
      var s := Join(ls);
      assert s == ls[0] + Join(rest);
      assert rest != [] ==> ls[0][|ls[0]| - 1] == '\n';
      assert Join(rest) == [] <== rest == [];
      LineEndOfLine(ls[0], Join(rest));
      assert s[..|ls[0]|] == ls[0];
      assert s[|ls[0]|..] == Join(rest);
    }
  }

  lemma {:induction false} JoinAppend(ls: seq<string>, l: string)
    ensures Join(ls + [l]) == Join(ls) + l
  {
    if ls != [] {
      assert (ls + [l])[1..] == ls[1..] + [l];
      JoinAppend(ls[1..], l);
    } else {
      assert [l][1..] == [];
    }
  }

  // ---------------------------------------------------------------- numbers as text

  predicate IsDigit(c: char) { '0' <= c <= '9' }

  /** `s.isdigit()` restricted to ASCII digits. */
  predicate IsDigits(s: string) {
    |s| > 0 && forall k :: 0 <= k < |s| ==> IsDigit(s[k])
  }

  function DigitChar(d: nat): (c: char)
    requires d < 10
    ensures IsDigit(c) && c as int - '0' as int == d
  {
    "0123456789"[d]
  }

  /** `int(s)` of a string of ASCII digits (leading zeros allowed). */
  function DigitsValue(s: string): nat
    requires forall k :: 0 <= k < |s| ==> IsDigit(s[k])
  {
    if s == [] then 0
    else
      assert IsDigit(s[|s| - 1]);
      DigitsValue(s[..|s| - 1]) * 10 + (s[|s| - 1] as int - '0' as int)
  }

  /** `str(n)` of a natural number: its decimal digits, without leading zeros. */
  function NatToString(n: nat): (s: string)
    ensures IsDigits(s)
    ensures |s| > 1 ==> s[0] != '0'
  {
    if n < 10 then [DigitChar(n)]
    else
      var h := NatToString(n / 10);
      assert h[0] == (h + [DigitChar(n % 10)])[0];
      h + [DigitChar(n % 10)]
  }

  /** `str(i)` of any integer. */
  function IntToString(i: int): (s: string)
    ensures |s| > 0
    ensures i >= 0 <==> IsDigits(s)
  {
    if i < 0 then
      var s := "-" + NatToString(-i);
      assert !IsDigit(s[0]);
      s
    else NatToString(i)
  }

  /** `int(str(n)) == n`: rendering and parsing are inverses. */
  lemma {:induction false} DigitsValueOfNatToString(n: nat)
    ensures DigitsValue(NatToString(n)) == n
    decreases n
  {
    if n >= 10 {
      DigitsValueOfNatToString(n / 10);
      var s := NatToString(n);
      assert s[..|s| - 1] == NatToString(n / 10);
    }
  }

  // ---------------------------------------------------------------- case

  function LowerChar(c: char): char {
    if 'A' <= c <= 'Z' then (c as int + 32) as char else c
  }

  /** `s.lower()` on ASCII letters; other characters are unchanged. */
  function Lower(s: string): (r: string)
    ensures |r| == |s|
  {
    if s == [] then [] else [LowerChar(s[0])] + Lower(s[1..])
  }

  // ---------------------------------------------------------------- paths

  /** `posixpath.join(a, b)`. */
  function PathJoin(a: string, b: string): string {
    if |b| > 0 && b[0] == '/' then b
    else if a == "" || a[|a| - 1] == '/' then a + b
    else a + "/" + b
  }

  /** `posixpath.basename(p)`: what follows the last separator. */
  function Basename(p: string): string {
    if p == [] then []
    else if p[|p| - 1] == '/' then []
    else Basename(p[..|p| - 1]) + [p[|p| - 1]]
  }

  lemma {:induction false} BasenameAfterSeparator(p: string, q: string)
    requires p == [] || p[|p| - 1] == '/'
    requires '/' !in q
    ensures Basename(p + q) == q
    decreases |q|
  {
    if q == [] {
      assert p + q == p;
    } else {
      var q' := q[..|q| - 1];
      assert (p + q)[..|p + q| - 1] == p + q';
      BasenameAfterSeparator(p, q');
      assert q' + [q[|q| - 1]] == q;
    }
  }

  /** A bare file name joined under a folder is recovered by `basename`. */
  lemma BasenameOfJoin(folder: string, name: string)
    requires '/' !in name
    ensures Basename(PathJoin(folder, name)) == name
  {
    if folder == "" || folder[|folder| - 1] == '/' {
      BasenameAfterSeparator(folder, name);
    } else {
      assert folder + "/" + name == (folder + "/") + name;
      BasenameAfterSeparator(folder + "/", name);
    }
  }
}
