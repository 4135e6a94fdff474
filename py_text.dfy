/**
 * Models of the Python string operations the scrapers and scripts rely on:
 * `strip`, `isdigit`, `in`, `startswith`, `replace(x, "")`, `split`,
 * `re.sub(r'[^\d]', '', s)`, `int(s)`, `str(n)` and the `,`-grouped number format.
 * Characters are code points; only the whitespace and digit classes below are recognised.
 */
module PyText {
  import opened Wrappers

  /**
   * `str.isspace`, the whitespace `strip` and `split` remove: the ASCII controls
   * tab to carriage return and file to unit separator, the space, next line,
   * no-break space, and the Unicode space and line/paragraph separators.
   */
  predicate IsSpace(c: char) {
    || '\t' <= c <= '\r'
    || '\U{1C}' <= c <= ' '
    || c == '\U{85}' || c == '\U{A0}' || c == '\U{1680}'
    || '\U{2000}' <= c <= '\U{200A}'
    || c == '\U{2028}' || c == '\U{2029}' || c == '\U{202F}' || c == '\U{205F}' || c == '\U{3000}'
  }

  predicate IsDigit(c: char) {
    '0' <= c <= '9'
  }

  predicate AllDigits(s: string) {
    forall i :: 0 <= i < |s| ==> IsDigit(s[i])
  }

  /** `str.isdigit`: non-empty, and every character a digit. */
  predicate IsDigits(s: string) {
    |s| > 0 && AllDigits(s)
  }

  function DigitChar(d: nat): (c: char)
    requires d < 10
    ensures IsDigit(c) && c as int - '0' as int == d
  {
    ('0' as int + d) as char
  }

  /** The number a string of decimal digits denotes (0 for the empty string). */
  function DigitsValue(s: string): nat
    requires AllDigits(s)
  {
    if s == [] then 0 else 10 * DigitsValue(s[..|s| - 1]) + (s[|s| - 1] as int - '0' as int)
  }

  function Pow10(k: nat): nat {
    if k == 0 then 1 else 10 * Pow10(k - 1)
  }

  lemma {:induction false} AllDigitsAppend(s: string, t: string)
    requires AllDigits(s) && AllDigits(t)
    ensures AllDigits(s + t)
  {
    forall i | 0 <= i < |s + t| ensures IsDigit((s + t)[i]) {
      if i < |s| { assert (s + t)[i] == s[i]; } else { assert (s + t)[i] == t[i - |s|]; }
    }
  }

  lemma {:induction false} DigitsValueAppend(s: string, t: string)
    requires AllDigits(s) && AllDigits(t)
    ensures AllDigits(s + t)
    ensures DigitsValue(s + t) == DigitsValue(s) * Pow10(|t|) + DigitsValue(t)
    decreases |t|
  {
    AllDigitsAppend(s, t);
    if t == [] {
      assert s + t == s;
    } else {
      var st := s + t;
      var t' := t[..|t| - 1];
      var d := t[|t| - 1] as int - '0' as int;
      assert st[..|st| - 1] == s + t';
      assert st[|st| - 1] == t[|t| - 1];
      DigitsValueAppend(s, t');
      var a, p, b := DigitsValue(s), Pow10(|t'|), DigitsValue(t');
      assert DigitsValue(st) == 10 * (a * p + b) + d;
      assert DigitsValue(t) == 10 * b + d;
      assert Pow10(|t|) == 10 * p;
      ShiftDigit(a, p, b, d);
    }
  }

  lemma ShiftDigit(a: int, p: int, b: int, d: int)
    ensures 10 * (a * p + b) + d == a * (10 * p) + (10 * b + d)
  {
  }

  /** `str(n)` for a non-negative integer: its decimal digits, most significant first. */
  function DecimalString(n: nat): string
    decreases n
  {
    if n < 10 then [DigitChar(n)] else DecimalString(n / 10) + [DigitChar(n % 10)]
  }

  /** `str(n)` is a string of digits that denotes `n`. */
  lemma {:induction false} DecimalStringDigits(n: nat)
    ensures IsDigits(DecimalString(n)) && DigitsValue(DecimalString(n)) == n
    decreases n
  {
    if n >= 10 {
      DecimalStringDigits(n / 10);
      var r := DecimalString(n);
      assert r[..|r| - 1] == DecimalString(n / 10);
    }
  }

  // ---------------------------------------------------------------- strip

  function TrimLeft(s: string): (r: string)
    ensures |r| <= |s|
    ensures r == [] || !IsSpace(r[0])
  {
    if s != [] && IsSpace(s[0]) then TrimLeft(s[1..]) else s
  }

  /** `lstrip` drops a run of whitespace from the front and nothing else. */
  lemma {:induction false} TrimLeftDrops(s: string)
    ensures TrimLeft(s) == s[|s| - |TrimLeft(s)|..]
    ensures forall i :: 0 <= i < |s| - |TrimLeft(s)| ==> IsSpace(s[i])
    decreases |s|
  {
    if s != [] && IsSpace(s[0]) {
      TrimLeftDrops(s[1..]);
      forall i | 1 <= i < |s| - |TrimLeft(s)| ensures IsSpace(s[i]) {
        assert s[i] == s[1..][i - 1];
      }
    }
  }

  function TrimRight(s: string): (r: string)
    ensures |r| <= |s| && r == s[..|r|]
    ensures r == [] || !IsSpace(r[|r| - 1])
  {
    if s != [] && IsSpace(s[|s| - 1]) then TrimRight(s[..|s| - 1]) else s
  }

  /** `rstrip` drops a run of whitespace from the back and nothing else. */
  lemma {:induction false} TrimRightDrops(s: string)
    ensures forall i :: |TrimRight(s)| <= i < |s| ==> IsSpace(s[i])
    decreases |s|
  {
    if s != [] && IsSpace(s[|s| - 1]) {
      TrimRightDrops(s[..|s| - 1]);
    }
  }

  /** `str.strip()`: the text without leading and trailing whitespace. */
  function Strip(s: string): (r: string)
    ensures r == [] || (!IsSpace(r[0]) && !IsSpace(r[|r| - 1]))
    ensures |r| <= |s|
  {
    TrimRight(TrimLeft(s))
  }

  lemma StripIdempotent(s: string)
    ensures Strip(Strip(s)) == Strip(s)
  {
    StripOfStripped(Strip(s));
  }

  /** Text that starts and ends with a non-space character is its own strip. */
  lemma StripOfStripped(s: string)
    requires s == [] || (!IsSpace(s[0]) && !IsSpace(s[|s| - 1]))
    ensures Strip(s) == s
  {
  }

  // ---------------------------------------------------------------- search

  predicate OccursAt(s: string, sub: string, i: int) {
    0 <= i && i + |sub| <= |s| && s[i..i + |sub|] == sub
  }

  /** The first position at or after `k` where `sub` occurs in `s`. */
  function IndexFrom(s: string, sub: string, k: nat): (r: Option<nat>)
    requires k <= |s|
    ensures r.Some? ==> k <= r.value && OccursAt(s, sub, r.value)
    decreases |s| - k
  {
    if k + |sub| > |s| then None
    else if s[k..k + |sub|] == sub then Some(k)
    else IndexFrom(s, sub, k + 1)
  }

  /** `IndexFrom` finds the first occurrence, and finds nothing only when there is none. */
  lemma {:induction false} IndexFromFirst(s: string, sub: string, k: nat)
    requires k <= |s|
    ensures IndexFrom(s, sub, k).Some? ==> forall j :: k <= j < IndexFrom(s, sub, k).value ==> !OccursAt(s, sub, j)
    ensures IndexFrom(s, sub, k).None? ==> forall j :: k <= j ==> !OccursAt(s, sub, j)
    decreases |s| - k
  {
    if k + |sub| <= |s| && s[k..k + |sub|] != sub {
      IndexFromFirst(s, sub, k + 1);
    }
  }

  /** `s.find(sub)`, with `None` for -1. */
  function IndexOf(s: string, sub: string): Option<nat> {
    IndexFrom(s, sub, 0)
  }

  /** Python's `sub in s`. */
  predicate Contains(s: string, sub: string) {
    IndexOf(s, sub).Some?
  }

  /** `sub in s` holds exactly when `sub` occurs at some position of `s`. */
  lemma ContainsIff(s: string, sub: string)
    ensures Contains(s, sub) <==> exists i :: OccursAt(s, sub, i)
  {
    IndexFromFirst(s, sub, 0);
  }

  lemma ContainsAt(s: string, sub: string, i: int)
    requires OccursAt(s, sub, i)
    ensures Contains(s, sub)
  {
    IndexFromFirst(s, sub, 0);
  }

  /** Python's `s.startswith(p)`. */
  predicate StartsWith(s: string, p: string) {
    |p| <= |s| && s[..|p|] == p
  }

  // ---------------------------------------------------------------- split

  /** `s.split(sep)[0]`: the text before the first separator, or all of it. */
  function SplitHead(s: string, sep: string): (r: string)
    requires |sep| > 0
    ensures |r| <= |s| && r == s[..|r|]
    ensures r == s || OccursAt(s, sep, |r|)
  {
    match IndexOf(s, sep)
    case None => s
    case Some(i) => s[..i]
  }

  /** What comes before the first separator holds no separator. */
  lemma SplitHeadNoSeparator(s: string, sep: string)
    requires |sep| > 0
    ensures !Contains(SplitHead(s, sep), sep)
    ensures !Contains(s, sep) ==> SplitHead(s, sep) == s
  {
    var r := SplitHead(s, sep);
    forall j | OccursAt(r, sep, j) ensures OccursAt(s, sep, j) && j < |r| {
      assert r[j..j + |sep|] == s[j..j + |sep|];
    }
    IndexFromFirst(s, sep, 0);
  }

  /**
   * `s.split(sep)[1]`: the text after the first separator, up to the next one
   * or the end; `None` where Python raises `IndexError` (no separator).
   */
  function SplitSecond(s: string, sep: string): (r: Option<string>)
    requires |sep| > 0
    ensures r.Some? <==> Contains(s, sep)
  {
    match IndexOf(s, sep)
    case None => None
    case Some(i) => Some(SplitHead(s[i + |sep|..], sep))
  }

  /** The second piece follows the first separator, which nothing before it repeats, and holds no separator itself. */
  lemma SplitSecondSpec(s: string, sep: string)
    requires |sep| > 0 && Contains(s, sep)
    ensures !Contains(SplitSecond(s, sep).value, sep)
    ensures exists i :: OccursAt(s, sep, i) && !Contains(s[..i], sep)
                        && StartsWith(s[i + |sep|..], SplitSecond(s, sep).value)
  {
    var i := IndexOf(s, sep).value;
    var before, rest := s[..i], s[i + |sep|..];
    SplitHeadNoSeparator(rest, sep);
    forall j | OccursAt(before, sep, j) ensures OccursAt(s, sep, j) && j < i {
      assert before[j..j + |sep|] == s[j..j + |sep|];
    }
    IndexFromFirst(s, sep, 0);
    assert !Contains(before, sep);
    assert StartsWith(rest, SplitSecond(s, sep).value);
  }

  /** The index of the first whitespace character of `s` at or after `k`, or `|s|`. */
  function FirstSpace(s: string, k: nat): (r: nat)
    requires k <= |s|
    ensures k <= r <= |s|
    ensures r < |s| ==> IsSpace(s[r])
    ensures forall i :: k <= i < r ==> !IsSpace(s[i])
    decreases |s| - k
  {
    if k == |s| || IsSpace(s[k]) then k else FirstSpace(s, k + 1)
  }

  /**
   * `s.split(maxsplit=1)`: the first whitespace-separated word and, when
   * anything follows the whitespace run after it, that remainder.
   */
  function SplitOnce(s: string): seq<string> {
    var t := TrimLeft(s);
    if t == [] then []
    else
      var k := FirstSpace(t, 0);
      var rest := TrimLeft(t[k..]);
      if rest == [] then [t[..k]] else [t[..k], rest]
  }

  /** At most two parts, none for blank text; the first is one word, the second starts with a non-space. */
  lemma SplitOnceParts(s: string)
    ensures |SplitOnce(s)| <= 2
    ensures SplitOnce(s) == [] <==> TrimLeft(s) == []
    ensures |SplitOnce(s)| >= 1 ==> NonBlankWord(SplitOnce(s)[0])
    ensures |SplitOnce(s)| == 2 ==> |SplitOnce(s)[1]| > 0 && !IsSpace(SplitOnce(s)[1][0])
  {
    var t := TrimLeft(s);
    if t != [] {
      var k := FirstSpace(t, 0);
      var rest := TrimLeft(t[k..]);
      assert k > 0;
      assert SplitOnce(s) == if rest == [] then [t[..k]] else [t[..k], rest];
      forall i | 0 <= i < k ensures !IsSpace(t[..k][i]) {
        assert t[..k][i] == t[i];
      }
    }
  }

  /** Leading whitespace before a text that starts with a non-space is all that `TrimLeft` drops. */
  lemma {:induction false} TrimLeftSpaces(sp: string, rest: string)
    requires forall i :: 0 <= i < |sp| ==> IsSpace(sp[i])
    requires rest == [] || !IsSpace(rest[0])
    ensures TrimLeft(sp + rest) == rest
    decreases |sp|
  {
    if sp == [] {
      assert sp + rest == rest;
    } else {
      assert (sp + rest)[1..] == sp[1..] + rest;
      TrimLeftSpaces(sp[1..], rest);
    }
  }

  /** A word, a whitespace run and a remainder split into the word and the remainder. */
  lemma SplitOnceWords(w: string, sp: string, rest: string)
    requires NonBlankWord(w)
    requires |sp| > 0 && forall i :: 0 <= i < |sp| ==> IsSpace(sp[i])
    requires rest != [] && !IsSpace(rest[0])
    ensures SplitOnce(w + sp + rest) == [w, rest]
  {
    var s := w + sp + rest;
    assert TrimLeft(s) == s;
    var k := FirstSpace(s, 0);
    assert s[|w|] == sp[0];
    assert forall i :: 0 <= i < |w| ==> s[i] == w[i];
    assert k == |w|;
    assert s[..k] == w;
    assert s[k..] == sp + rest;
    TrimLeftSpaces(sp, rest);
  }

  /**
   * A command line: a command word, a whitespace run and an argument with no
   * whitespace at either end is left alone by `strip`, starts with the command,
   * and splits once into the command and the argument.
   */
  lemma CommandLine(cmd: string, sp: string, arg: string)
    requires NonBlankWord(cmd)
    requires |sp| > 0 && forall i :: 0 <= i < |sp| ==> IsSpace(sp[i])
    requires arg != [] && !IsSpace(arg[0]) && !IsSpace(arg[|arg| - 1])
    ensures Strip(cmd + sp + arg) == cmd + sp + arg
    ensures StartsWith(cmd + sp + arg, cmd)
    ensures SplitOnce(cmd + sp + arg) == [cmd, arg]
  {
    var text := cmd + sp + arg;
    assert text[0] == cmd[0] && text[|text| - 1] == arg[|arg| - 1];
    StripOfStripped(text);
    assert text[..|cmd|] == cmd;
    SplitOnceWords(cmd, sp, arg);
  }

  /**
   * Text with no whitespace at either end splits into one part exactly when it is
   * a single word, and that part is the whole text.
   */
  lemma SplitOnceSingle(s: string)
    requires s != [] && !IsSpace(s[0]) && !IsSpace(s[|s| - 1])
    ensures |SplitOnce(s)| == 1 <==> NonBlankWord(s)
    ensures NonBlankWord(s) ==> SplitOnce(s) == [s]
  {
    assert TrimLeft(s) == s;
    var k := FirstSpace(s, 0);
    if k == |s| {
      assert s[k..] == [];
      assert s[..k] == s;
    } else {
      assert !NonBlankWord(s);
      var tail := s[k..];
      TrimLeftDrops(tail);
      assert tail[|tail| - 1] == s[|s| - 1];
      assert TrimLeft(tail) != [];
    }
  }

  /** A non-empty run of non-whitespace characters. */
  predicate NonBlankWord(w: string) {
    |w| > 0 && forall i :: 0 <= i < |w| ==> !IsSpace(w[i])
  }

  // ---------------------------------------------------------------- replace and re.sub

  /** `s.replace(pat, "")`: every non-overlapping occurrence, scanned left to right, removed. */
  function RemoveAll(s: string, pat: string): (r: string)
    requires |pat| > 0
    ensures |r| <= |s|
    decreases |s|
  {
    if |s| < |pat| then s
    else if s[..|pat|] == pat then RemoveAll(s[|pat|..], pat)
    else [s[0]] + RemoveAll(s[1..], pat)
  }

  /** A prefix without the pattern's first character passes through the removal unchanged. */
  lemma {:induction false} RemoveAllKeepsPrefix(s: string, t: string, pat: string)
    requires |pat| > 0 && pat[0] !in s
    ensures RemoveAll(s + t, pat) == s + RemoveAll(t, pat)
    decreases |s|
  {
    if s == [] {
      assert s + t == t;
    } else {
      var st := s + t;
      if |st| < |pat| {
        assert RemoveAll(t, pat) == t;
      } else {
        assert st[0] == s[0] && s[0] != pat[0];
        assert st[..|pat|][0] == st[0];
        assert st[..|pat|] != pat;
        assert st[1..] == s[1..] + t;
        assert pat[0] !in s[1..];
        RemoveAllKeepsPrefix(s[1..], t, pat);
        assert RemoveAll(st, pat) == [s[0]] + (s[1..] + RemoveAll(t, pat));
        assert [s[0]] + s[1..] == s;
      }
    }
  }

  /** Removing a single character distributes over concatenation. */
  lemma {:induction false} RemoveCharAppend(s: string, t: string, c: char)
    ensures RemoveAll(s + t, [c]) == RemoveAll(s, [c]) + RemoveAll(t, [c])
    decreases |s|
  {
    if s == [] {
      assert s + t == t;
    } else {
      assert (s + t)[1..] == s[1..] + t;
      assert (s + t)[..1] == [s[0]];
      RemoveCharAppend(s[1..], t, c);
    }
  }

  /** After `s.replace(c, "")` for a single character `c`, no `c` is left. */
  lemma {:induction false} RemoveCharGone(s: string, c: char)
    ensures c !in RemoveAll(s, [c])
    decreases |s|
  {
    if s != [] {
      RemoveCharGone(s[1..], c);
    }
  }

  /** Text without the character `c` is unchanged by `replace(c, "")`. */
  lemma {:induction false} RemoveCharAbsent(s: string, c: char)
    requires c !in s
    ensures RemoveAll(s, [c]) == s
    decreases |s|
  {
    if s != [] {
      RemoveCharAbsent(s[1..], c);
    }
  }

  /** `re.sub(r'[^\d]', '', s)`: the digit characters of `s`, in order. */
  function OnlyDigits(s: string): (r: string)
    ensures AllDigits(r) && |r| <= |s|
  {
    if s == [] then []
    else (if IsDigit(s[0]) then [s[0]] else []) + OnlyDigits(s[1..])
  }

  lemma {:induction false} OnlyDigitsAppend(s: string, t: string)
    ensures OnlyDigits(s + t) == OnlyDigits(s) + OnlyDigits(t)
    decreases |s|
  {
    if s == [] {
      assert s + t == t;
    } else {
      assert (s + t)[1..] == s[1..] + t;
      OnlyDigitsAppend(s[1..], t);
    }
  }

  lemma {:induction false} OnlyDigitsOfDigits(s: string)
    requires AllDigits(s)
    ensures OnlyDigits(s) == s
    decreases |s|
  {
    if s != [] {
      OnlyDigitsOfDigits(s[1..]);
    }
  }

  // ---------------------------------------------------------------- int()

  /** The digits of an integer literal, with single underscores allowed between digits. */
  predicate IntBody(b: string) {
    && |b| > 0
    && IsDigit(b[0])
    && IsDigit(b[|b| - 1])
    && (forall i :: 0 <= i < |b| ==> IsDigit(b[i]) || b[i] == '_')
    && (forall i :: 0 <= i < |b| ==> !UnderscorePairAt(b, i))
  }

  predicate UnderscorePairAt(b: string, i: int) {
    0 <= i < |b| - 1 && b[i] == '_' && b[i + 1] == '_'
  }

  /**
   * Python's `int(s)` on a string: optional surrounding whitespace, an optional
   * sign and decimal digits; `None` where Python raises `ValueError`.
   */
  function PyInt(s: string): (r: Option<int>)
    ensures r.Some? ==> Strip(s) != []
  {
    SignedInt(Strip(s))
  }

  /** An optional sign followed by an integer literal body; `None` for anything else. */
  function SignedInt(t: string): (r: Option<int>)
    ensures r.Some? ==> t != []
  {
    if t == [] then None
    else
      var body := if t[0] == '-' || t[0] == '+' then t[1..] else t;
      if IntBody(body) then
        var v: int := DigitsValue(OnlyDigits(body));
        Some(if t[0] == '-' then -v else v)
      else None
  }

  /** A string of digits parses to the number it denotes. */
  lemma PyIntOfDigits(s: string)
    requires IsDigits(s)
    ensures PyInt(s) == Some(DigitsValue(s) as int)
  {
    StripOfStripped(s);
    SignedIntOfDigits(s);
  }

  lemma SignedIntOfDigits(s: string)
    requires IsDigits(s)
    ensures SignedInt(s) == Some(DigitsValue(s) as int)
  {
    DigitsAreIntBody(s);
    OnlyDigitsOfDigits(s);
    assert s[0] != '-' && s[0] != '+';
  }

  /** A minus sign followed by digits parses to the negated value. */
  lemma PyIntOfNegated(d: string)
    requires IsDigits(d)
    ensures PyInt("-" + d) == Some(-(DigitsValue(d) as int))
  {
    var t := "-" + d;
    assert t[0] == '-' && t[|t| - 1] == d[|d| - 1];
    StripOfStripped(t);
    assert Strip(t) == t;
    SignedIntOfNegated(d);
  }

  lemma SignedIntOfNegated(d: string)
    requires IsDigits(d)
    ensures SignedInt("-" + d) == Some(-(DigitsValue(d) as int))
  {
    var t := "-" + d;
    assert t != [] && t[0] == '-' && t[1..] == d;
    DigitsAreIntBody(d);
    OnlyDigitsOfDigits(d);
  }

  lemma DigitsAreIntBody(d: string)
    requires IsDigits(d)
    ensures IntBody(d)
  {
  }

  /** `int(str(n)) == n` for every non-negative integer. */
  lemma PyIntOfStr(n: nat)
    ensures PyInt(PyStr(n)) == Some(n)
  {
    var d := DecimalString(n);
    DecimalStringDigits(n);
    PyIntOfDigits(d);
  }

  /** `str(n)` for any integer. */
  function PyStr(n: int): string {
    if n < 0 then "-" + DecimalString(-n) else DecimalString(n)
  }

  // ---------------------------------------------------------------- grouped numbers

  /** Three zero-padded digits. */
  function Pad3(k: nat): (r: string)
    requires k < 1000
    ensures |r| == 3 && AllDigits(r) && DigitsValue(r) == k
  {
    var a, rem := k / 100, k % 100;
    var b, c := rem / 10, rem % 10;
    assert k == 100 * a + rem && rem == 10 * b + c;
    var r := [DigitChar(a), DigitChar(b), DigitChar(c)];
    assert r[..2] == [DigitChar(a), DigitChar(b)];
    assert r[..2][..1] == [DigitChar(a)];
    assert [DigitChar(a)][..0] == [];
    assert DigitsValue([DigitChar(a)]) == a;
    assert DigitsValue(r[..2]) == 10 * a + b;
    assert DigitsValue(r) == 10 * (10 * a + b) + c;
    r
  }

  /** A non-negative integer with `sep` between groups of three digits: `23.133.150`, `1,250`. */
  function Grouped(n: nat, sep: char): string
    decreases n
  {
    if n < 1000 then DecimalString(n) else Grouped(n / 1000, sep) + [sep] + Pad3(n % 1000)
  }

  /** Dropping the separators from a grouped number gives back its digits. */
  lemma {:induction false} GroupedWithoutSeparators(n: nat, sep: char)
    requires !IsDigit(sep)
    ensures IsDigits(RemoveAll(Grouped(n, sep), [sep]))
    ensures DigitsValue(RemoveAll(Grouped(n, sep), [sep])) == n
    decreases n
  {
    if n < 1000 {
      DecimalStringDigits(n);
      RemoveCharAbsent(DecimalString(n), sep);
    } else {
      var head := Grouped(n / 1000, sep);
      var p := Pad3(n % 1000);
      var g := Grouped(n, sep);
      assert g == head + ([sep] + p);
      GroupedWithoutSeparators(n / 1000, sep);
      var h := RemoveAll(head, [sep]);
      RemoveCharAppend(head, [sep] + p, sep);
      RemoveCharAppend([sep], p, sep);
      RemoveCharAbsent(p, sep);
      assert RemoveAll([sep], [sep]) == [];
      assert RemoveAll(g, [sep]) == h + p;
      DigitsValueAppend(h, p);
      assert Pow10(3) == 1000;
      assert DigitsValue(h + p) == (n / 1000) * 1000 + n % 1000;
    }
  }

  /** Keeping only the digits of a grouped number gives back its value. */
  lemma {:induction false} GroupedOnlyDigits(n: nat, sep: char)
    requires !IsDigit(sep)
    ensures IsDigits(OnlyDigits(Grouped(n, sep)))
    ensures DigitsValue(OnlyDigits(Grouped(n, sep))) == n
    decreases n
  {
    if n < 1000 {
      DecimalStringDigits(n);
      OnlyDigitsOfDigits(DecimalString(n));
    } else {
      var head := Grouped(n / 1000, sep);
      var p := Pad3(n % 1000);
      var g := Grouped(n, sep);
      assert g == head + ([sep] + p);
      GroupedOnlyDigits(n / 1000, sep);
      var h := OnlyDigits(head);
      OnlyDigitsAppend(head, [sep] + p);
      OnlyDigitsAppend([sep], p);
      OnlyDigitsOfDigits(p);
      assert OnlyDigits([sep]) == [];
      assert OnlyDigits(g) == h + p;
      DigitsValueAppend(h, p);
      assert Pow10(3) == 1000;
      assert DigitsValue(h + p) == (n / 1000) * 1000 + n % 1000;
    }
  }

  /** A grouped number holds only digits and the separator. */
  lemma {:induction false} GroupedChars(n: nat, sep: char)
    ensures forall i :: 0 <= i < |Grouped(n, sep)| ==> IsDigit(Grouped(n, sep)[i]) || Grouped(n, sep)[i] == sep
    decreases n
  {
    if n < 1000 {
      DecimalStringDigits(n);
    } else {
      GroupedChars(n / 1000, sep);
      var head, p := Grouped(n / 1000, sep), Pad3(n % 1000);
      assert Grouped(n, sep) == head + [sep] + p;
    }
  }

  // ---------------------------------------------------------------- digits and white space

  lemma {:induction false} SpacesHaveNoDigits(s: string)
    requires forall i :: 0 <= i < |s| ==> IsSpace(s[i])
    ensures OnlyDigits(s) == []
    decreases |s|
  {
    if s != [] {
      SpacesHaveNoDigits(s[1..]);
    }
  }

  /** White space holds no digit, so `strip` keeps every digit. */
  lemma OnlyDigitsStrip(s: string)
    ensures OnlyDigits(Strip(s)) == OnlyDigits(s)
  {
    OnlyDigitsTrimLeft(s);
    OnlyDigitsTrimRight(TrimLeft(s));
  }

  lemma OnlyDigitsTrimLeft(s: string)
    ensures OnlyDigits(TrimLeft(s)) == OnlyDigits(s)
  {
    var t := TrimLeft(s);
    TrimLeftDrops(s);
    var lead := s[..|s| - |t|];
    assert s == lead + t;
    OnlyDigitsAppend(lead, t);
    SpacesHaveNoDigits(lead);
  }

  lemma OnlyDigitsTrimRight(t: string)
    ensures OnlyDigits(TrimRight(t)) == OnlyDigits(t)
  {
    var u := TrimRight(t);
    TrimRightDrops(t);
    var trail := t[|u|..];
    assert t == u + trail;
    OnlyDigitsAppend(u, trail);
    SpacesHaveNoDigits(trail);
  }

  /** `(a + sep + b).split(sep)[0]` is `a` when `a` holds no separator. */
  lemma SplitHeadBefore(a: string, b: string, sep: char)
    requires sep !in a
    ensures SplitHead(a + [sep] + b, [sep]) == a
  {
    var s := a + [sep] + b;
    IndexFromFirst(s, [sep], 0);
    assert s[|a|..|a| + 1] == [sep];
    assert OccursAt(s, [sep], |a|);
    forall j | 0 <= j < |a| ensures !OccursAt(s, [sep], j) {
      assert s[j..j + 1] == [a[j]];
    }
  }
}
