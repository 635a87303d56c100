/** The few `java.lang.String` behaviours the core depends on, written out:
    `split` with a one-character literal separator (which drops trailing empty
    fields), `isBlank`, the case-insensitive comparison with "unknown", and
    `String.valueOf(int)` for a positive port number. */
module JavaText {

  /** Every field of `s` between occurrences of `sep`, empty fields included. */
  function Fields(s: string, sep: char): (r: seq<string>)
    ensures |r| >= 1
    ensures forall i :: 0 <= i < |r| ==> sep !in r[i]
    decreases |s|
  {
    if |s| == 0 then [""]
    else
      var t := Fields(s[1..], sep);
      if s[0] == sep then [""] + t
      else [[s[0]] + t[0]] + t[1..]
  }

  /** The fields written back with the separator between consecutive ones. */
  function Join(fs: seq<string>, sep: char): string
    decreases |fs|
  {
    if |fs| == 0 then ""
    else if |fs| == 1 then fs[0]
    else fs[0] + [sep] + Join(fs[1..], sep)
  }

  /** Joining the fields of a string gives the string back. */
  lemma {:induction false} JoinFields(s: string, sep: char)
    ensures Join(Fields(s, sep), sep) == s
    decreases |s|
  {
    if |s| > 0 {
      var t := Fields(s[1..], sep);
      JoinFields(s[1..], sep);
      if s[0] == sep {
        assert ([""] + t)[1..] == t;
      } else {
        var r := [[s[0]] + t[0]] + t[1..];
        if |t| > 1 {
          assert r[1..] == t[1..];
          assert Join(t, sep) == t[0] + [sep] + Join(t[1..], sep);
          assert s == [s[0]] + s[1..];
        }
      }
    }
  }

  /** A string that does not contain the separator is a single field. */
  lemma {:induction false} FieldsOfPlain(f: string, sep: char)
    requires sep !in f
    ensures Fields(f, sep) == [f]
    decreases |f|
  {
    if |f| > 0 {
      FieldsOfPlain(f[1..], sep);
      assert [f[0]] + f[1..] == f;
    }
  }

  /** A separator-free prefix glues onto the first field of what follows it. */
  lemma {:induction false} FieldsAfterPlain(f: string, x: string, sep: char)
    requires sep !in f
    ensures Fields(f + x, sep) == [f + Fields(x, sep)[0]] + Fields(x, sep)[1..]
    decreases |f|
  {
    if |f| > 0 {
      assert (f + x)[1..] == f[1..] + x;
      FieldsAfterPlain(f[1..], x, sep);
      assert [f[0]] + (f[1..] + Fields(x, sep)[0]) == f + Fields(x, sep)[0];
    } else {
      assert f + x == x;
      var t := Fields(x, sep);
      assert f + t[0] == t[0];
      assert [t[0]] + t[1..] == t;
    }
  }

  /** Splitting a join of separator-free fields recovers exactly those fields. */
  lemma {:induction false} FieldsOfJoin(fs: seq<string>, sep: char)
    requires |fs| >= 1
    requires forall i :: 0 <= i < |fs| ==> sep !in fs[i]
    ensures Fields(Join(fs, sep), sep) == fs
    decreases |fs|
  {
    if |fs| == 1 {
      FieldsOfPlain(fs[0], sep);
    } else {
      var rest := Join(fs[1..], sep);
      FieldsOfJoin(fs[1..], sep);
      assert fs[0] + [sep] + rest == fs[0] + ([sep] + rest);
      FieldsAfterPlain(fs[0], [sep] + rest, sep);
      assert ([sep] + rest)[1..] == rest;
      assert Fields([sep] + rest, sep) == [""] + fs[1..];
      assert fs[0] + "" == fs[0];
      assert [fs[0]] + fs[1..] == fs;
    }
  }

  /** The fields with every empty field at the end removed. */
  function DropTrailingEmpty(fs: seq<string>): (r: seq<string>)
    ensures |r| <= |fs| && r == fs[..|r|]
    ensures forall i :: |r| <= i < |fs| ==> fs[i] == ""
    ensures |r| == 0 || r[|r| - 1] != ""
    decreases |fs|
  {
    if |fs| == 0 then fs
    else if fs[|fs| - 1] == "" then DropTrailingEmpty(fs[..|fs| - 1])
    else fs
  }

  /** `s.split(sep)` in Java for a one-character literal separator: a string
      without the separator is returned whole (so "" gives [""]); otherwise
      the fields are returned with trailing empty fields removed. */
  function Split(s: string, sep: char): (r: seq<string>)
    ensures sep !in s ==> r == [s]
    ensures forall i :: 0 <= i < |r| ==> sep !in r[i]
    ensures sep in s ==> |r| == 0 || r[|r| - 1] != ""
  {
    if sep !in s then [s] else DropTrailingEmpty(Fields(s, sep))
  }

  /** The text before the first separator (all of `s` when there is none). */
  function Before(s: string, sep: char): (r: string)
    ensures r <= s
    ensures sep !in r
    ensures |r| < |s| ==> s[|r|] == sep
    decreases |s|
  {
    if |s| == 0 || s[0] == sep then "" else [s[0]] + Before(s[1..], sep)
  }

  lemma {:induction false} FieldsHead(s: string, sep: char)
    ensures Fields(s, sep)[0] == Before(s, sep)
    decreases |s|
  {
    if |s| > 0 && s[0] != sep {
      FieldsHead(s[1..], sep);
    }
  }

  lemma {:induction false} SeparatorsHaveEmptyFields(s: string, sep: char)
    requires forall i :: 0 <= i < |s| ==> s[i] == sep
    ensures forall j :: 0 <= j < |Fields(s, sep)| ==> Fields(s, sep)[j] == ""
    decreases |s|
  {
    if |s| > 0 {
      SeparatorsHaveEmptyFields(s[1..], sep);
    }
  }

  lemma {:induction false} JoinOfEmpties(fs: seq<string>, sep: char)
    requires forall j :: 0 <= j < |fs| ==> fs[j] == ""
    ensures forall i :: 0 <= i < |Join(fs, sep)| ==> Join(fs, sep)[i] == sep
    decreases |fs|
  {
    if |fs| > 1 {
      JoinOfEmpties(fs[1..], sep);
      assert Join(fs, sep) == [sep] + Join(fs[1..], sep);
    }
  }

  /** Java's `split` returns an empty array exactly when the string is
      non-empty and made only of separators; indexing `[0]` then throws. */
  lemma SplitEmptyIffOnlySeparators(s: string, sep: char)
    ensures Split(s, sep) == [] <==> |s| > 0 && forall i :: 0 <= i < |s| ==> s[i] == sep
  {
    if |s| > 0 && forall i :: 0 <= i < |s| ==> s[i] == sep {
      assert s[0] == sep;
      SeparatorsHaveEmptyFields(s, sep);
    }
    if Split(s, sep) == [] {
      assert sep in s;
      var fs := Fields(s, sep);
      JoinOfEmpties(fs, sep);
      JoinFields(s, sep);
    }
  }

  /** Element 0 of a non-empty split is the text before the first separator. */
  lemma SplitHead(s: string, sep: char)
    requires |Split(s, sep)| > 0
    ensures Split(s, sep)[0] == Before(s, sep)
  {
    FieldsHead(s, sep);
    if sep !in s {
      assert Before(s, sep) == s;
    }
  }

  /** `Character.isWhitespace`: the ASCII controls it accepts and the Unicode
      space, line and paragraph separators other than the no-break spaces. */
  predicate IsWhitespace(c: char)
  {
    c == ' ' || c == '\t' || c == '\n' || c == '\U{B}' || c == '\U{C}' || c == '\r'
    || ('\U{1C}' <= c <= '\U{1F}')
    || c == '\U{1680}' || ('\U{2000}' <= c <= '\U{2006}') || ('\U{2008}' <= c <= '\U{200A}')
    || c == '\U{2028}' || c == '\U{2029}' || c == '\U{205F}' || c == '\U{3000}'
  }

  /** `String.isBlank` and `StringUtils.isBlank` on a non-null string. */
  predicate IsBlank(s: string)
  {
    forall i :: 0 <= i < |s| ==> IsWhitespace(s[i])
  }

  /** The character a case-insensitive comparison with a lower-case ASCII
      word sees: ASCII capitals fold to lower case, the Kelvin sign to 'k'. */
  function FoldAscii(c: char): char
  {
    if 'A' <= c <= 'Z' then ((c as int) + 32) as char
    else if c == '\U{212A}' then 'k'
    else c
  }

  /** `s.equalsIgnoreCase("unknown")`. */
  predicate SpellsUnknown(s: string)
  {
    |s| == 7 && forall i :: 0 <= i < 7 ==> FoldAscii(s[i]) == "unknown"[i]
  }

  function DigitChar(d: nat): (c: char)
    requires d < 10
    ensures '0' <= c <= '9'
  {
    (('0' as int) + d) as char
  }

  predicate IsDecimal(s: string)
  {
    forall i :: 0 <= i < |s| ==> '0' <= s[i] <= '9'
  }

  /** `String.valueOf(n)` for a non-negative int: decimal, no leading zero. */
  function NatToString(n: nat): (r: string)
    ensures |r| >= 1 && IsDecimal(r)
    ensures r[0] == '0' ==> n == 0
    decreases n
  {
    if n < 10 then [DigitChar(n)] else NatToString(n / 10) + [DigitChar(n % 10)]
  }

  /** The number a string of decimal digits denotes. */
  function DecimalValue(s: string): nat
    requires IsDecimal(s)
    decreases |s|
  {
    if |s| == 0 then 0
    else DecimalValue(s[..|s| - 1]) * 10 + ((s[|s| - 1] as int) - ('0' as int))
  }

  lemma {:induction false} DecimalRoundTrip(n: nat)
    ensures DecimalValue(NatToString(n)) == n
    decreases n
  {
    if n >= 10 {
      DecimalRoundTrip(n / 10);
      var r := NatToString(n);
      assert r[..|r| - 1] == NatToString(n / 10);
    }
  }
}
