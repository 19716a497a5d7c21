/** Character classes shared by the path renderer and the mention scanner. */
module Chars {

  /** An ASCII decimal digit: what `\d` and the decimal rendering of an int use here. */
  predicate IsDigit(c: char) {
    '0' <= c <= '9'
  }

  /** The characters Python's argument-less `str.strip()` removes: the
      controls TAB..CR and FS..US, SPACE, NEL, NBSP and the Unicode space
      separators and line/paragraph separators. */
  predicate IsSpace(c: char): (b: bool)
    ensures c as int < 0x80 ==> (b <==> c in "\t\n\U{B}\U{C}\r\U{1C}\U{1D}\U{1E}\U{1F} ")
    ensures b ==> c != '<' && c != '@' && c != '>' && !('0' <= c <= '9')
  {
    || '\t' <= c <= '\r'
    || '\U{1C}' <= c <= '\U{1F}'
    || c == ' '
    || c == '\U{85}'
    || c == '\U{A0}'
    || c == '\U{1680}'
    || '\U{2000}' <= c <= '\U{200A}'
    || c == '\U{2028}'
    || c == '\U{2029}'
    || c == '\U{202F}'
    || c == '\U{205F}'
    || c == '\U{3000}'
  }

  /** A non-empty run of digits. */
  predicate AllDigits(s: string) {
    |s| > 0 && forall i :: 0 <= i < |s| ==> IsDigit(s[i])
  }
}

/** File names of the per-guild ledgers: `csv_path(guild_id)` is the
    decimal text of the guild id followed by `.csv`. */
module CsvNames {
  import opened Chars

  datatype Option<T> = None | Some(value: T)

  const CSV_SUFFIX: string := ".csv"

  /** Python's `name.endswith(".csv")`. */
  predicate EndsWithCsv(name: string) {
    |name| >= |CSV_SUFFIX| && name[|name| - |CSV_SUFFIX|..] == CSV_SUFFIX
  }

  function DigitChar(d: nat): (c: char)
    requires d < 10
    ensures IsDigit(c) && DigitValue(c) == d
  {
    ('0' as int + d) as char
  }

  function DigitValue(c: char): nat
    requires IsDigit(c)
  {
    c as int - '0' as int
  }

  /** Decimal text of a natural number, without leading zeros. */
  function NatText(n: nat): string
    decreases n
  {
    if n < 10 then [DigitChar(n)] else NatText(n / 10) + [DigitChar(n % 10)]
  }

  /** Python's `f"{g}"` for an int: a minus sign before the magnitude when negative. */
  function IntText(g: int): string {
    if g < 0 then "-" + NatText(-g) else NatText(g)
  }

  /** `csv_path(guild_id)`. */
  function CsvPath(g: int): string {
    IntText(g) + CSV_SUFFIX
  }

  /** Digit text as `f"{n}"` writes it: non-empty, all digits, no leading zero. */
  predicate Canonical(t: string) {
    AllDigits(t) && (t[0] == '0' ==> |t| == 1)
  }

  function DigitsValue(t: string): nat
    requires forall i :: 0 <= i < |t| ==> IsDigit(t[i])
    decreases |t|
  {
    if t == [] then 0 else 10 * DigitsValue(t[..|t| - 1]) + DigitValue(t[|t| - 1])
  }

  /** Reads back the text `f"{g}"` produces; anything else is `None`. */
  function ParseInt(s: string): Option<int> {
    if |s| > 0 && s[0] == '-' then
      if Canonical(s[1..]) && s[1..] != "0" then Some(-(DigitsValue(s[1..]) as int)) else None
    else if Canonical(s) then Some(DigitsValue(s) as int)
    else None
  }

  /** The guild whose ledger a file name is, if it is one. */
  function GuildOfPath(p: string): Option<int> {
    if EndsWithCsv(p) then ParseInt(p[..|p| - |CSV_SUFFIX|]) else None
  }

  lemma DigitsValueSnoc(t: string, c: char)
    requires forall i :: 0 <= i < |t| ==> IsDigit(t[i])
    requires IsDigit(c)
    ensures DigitsValue(t + [c]) == 10 * DigitsValue(t) + DigitValue(c)
  {
    assert (t + [c])[..|t|] == t;
  }

  /** The rendering of a natural number is canonical digit text that reads back as the number. */
  lemma {:induction false} NatTextCanonical(n: nat)
    ensures Canonical(NatText(n))
    ensures DigitsValue(NatText(n)) == n
    decreases n
  {
    if n >= 10 {
      NatTextCanonical(n / 10);
      var t := NatText(n / 10);
      DigitsValueSnoc(t, DigitChar(n % 10));
      assert (t + [DigitChar(n % 10)])[0] == t[0];
    }
  }

  /** A canonical digit string with a leading non-zero digit has a positive value. */
  lemma {:induction false} CanonicalPositive(t: string)
    requires Canonical(t) && t[0] != '0'
    ensures DigitsValue(t) > 0
    decreases |t|
  {
    if |t| > 1 {
      var u := t[..|t| - 1];
      assert u[0] == t[0];
      CanonicalPositive(u);
    }
  }

  /** Canonical digit text is the rendering of its own value. */
  lemma {:induction false} CanonicalIsNatText(t: string)
    requires Canonical(t)
    ensures NatText(DigitsValue(t)) == t
    decreases |t|
  {
    if |t| > 1 {
      var u := t[..|t| - 1];
      assert u[0] == t[0];
      CanonicalPositive(u);
      CanonicalIsNatText(u);
      var n := DigitsValue(t);
      assert n == 10 * DigitsValue(u) + DigitValue(t[|t| - 1]);
      assert n / 10 == DigitsValue(u) && n % 10 == DigitValue(t[|t| - 1]);
      assert DigitChar(n % 10) == t[|t| - 1];
      assert t == u + [t[|t| - 1]];
    }
  }

  /** `ParseInt` inverts `IntText` in both directions. */
  lemma IntTextParse(s: string, g: int)
    ensures ParseInt(s) == Some(g) <==> s == IntText(g)
  {
    if s == IntText(g) {
      if g < 0 {
        NatTextCanonical(-g);
        assert s[1..] == NatText(-g);
        assert s[0] == '-';
      } else {
        NatTextCanonical(g);
        assert s[0] != '-';
      }
    }
    if ParseInt(s) == Some(g) {
      if |s| > 0 && s[0] == '-' {
        CanonicalIsNatText(s[1..]);
        assert s == "-" + s[1..];
      } else {
        CanonicalIsNatText(s);
      }
    }
  }

  /** A file name is guild g's ledger exactly when `GuildOfPath` reads g back from it. */
  lemma CsvPathInverse(p: string, g: int)
    ensures GuildOfPath(p) == Some(g) <==> p == CsvPath(g)
  {
    var n := |p| - |CSV_SUFFIX|;
    if p == CsvPath(g) {
      assert p[..n] == IntText(g) && p[n..] == CSV_SUFFIX;
      IntTextParse(p[..n], g);
    }
    if GuildOfPath(p) == Some(g) {
      IntTextParse(p[..n], g);
      assert p == p[..n] + p[n..];
    }
  }

  /** `csv_path` never gives two guilds the same file. */
  lemma CsvPathInjective(g: int, h: int)
    ensures CsvPath(g) == CsvPath(h) ==> g == h
  {
    CsvPathInverse(CsvPath(g), g);
    CsvPathInverse(CsvPath(g), h);
  }

  /** Every ledger name ends in `.csv`. */
  lemma CsvPathEndsWithCsv(g: int)
    ensures EndsWithCsv(CsvPath(g))
  {
    var p := CsvPath(g);
    assert p[|p| - |CSV_SUFFIX|..] == CSV_SUFFIX;
  }
}
