/**
 * The string helpers the relay leans on: hutool's blank test (`StrUtil.isBlank`),
 * Java's `String.split` on a one-character separator, and Java's decimal
 * rendering of an `int` (used by the `toString` of the statistics record).
 */
module Strings {

  /** hutool's `CharUtil.isBlankChar`: Java whitespace, Unicode space separators,
      and the invisible characters U+FEFF, U+202A, U+0000, U+3164, U+2800, U+180E. */
  predicate IsBlankChar(c: char) {
    || c == ' '
    || ('\t' <= c <= '\r')
    || ('\U{1C}' <= c <= '\U{1F}')
    || c == '\U{A0}' || c == '\U{1680}'
    || ('\U{2000}' <= c <= '\U{200A}')
    || c == '\U{2028}' || c == '\U{2029}' || c == '\U{202F}' || c == '\U{205F}' || c == '\U{3000}'
    || c == '\U{FEFF}' || c == '\U{202A}' || c == '\0' || c == '\U{3164}' || c == '\U{2800}' || c == '\U{180E}'
  }

  /** `StrUtil.isBlank` on a non-null string: empty, or blank characters only. */
  predicate IsBlank(s: string) {
    forall i :: 0 <= i < |s| ==> IsBlankChar(s[i])
  }

  /** Every piece of `s` between occurrences of `sep`, empty pieces included. */
  function SplitOn(s: string, sep: char): (pieces: seq<string>)
    ensures |pieces| >= 1
  {
    if |s| == 0 then [""]
    else
      var rest := SplitOn(s[1..], sep);
      if s[0] == sep then [""] + rest
      else
        [[s[0]] + rest[0]] + rest[1..]
  }

  /** The pieces glued back together with `sep` between neighbours. */
  function Join(pieces: seq<string>, sep: char): string
    requires |pieces| >= 1
  {
    if |pieces| == 1 then pieces[0] else pieces[0] + [sep] + Join(pieces[1..], sep)
  }

  /** Splitting loses nothing: joining the pieces gives the input back. */
  lemma {:induction false} SplitJoin(s: string, sep: char)
    ensures Join(SplitOn(s, sep), sep) == s
  {
    if |s| > 0 {
      SplitJoin(s[1..], sep);
      var rest := SplitOn(s[1..], sep);
      if s[0] == sep {
        assert [s[0]] + s[1..] == s;
      } else if |rest| == 1 {
        assert [s[0]] + rest[0] == s;
      } else {
        assert ([s[0]] + rest[0]) + [sep] + Join(rest[1..], sep) == [s[0]] + (rest[0] + [sep] + Join(rest[1..], sep));
        assert [s[0]] + s[1..] == s;
      }
    }
  }

  /** No piece contains the separator. */
  lemma {:induction false} SplitOnExcludesSep(s: string, sep: char)
    ensures forall i :: 0 <= i < |SplitOn(s, sep)| ==> sep !in SplitOn(s, sep)[i]
  {
    if |s| > 0 {
      SplitOnExcludesSep(s[1..], sep);
      var rest := SplitOn(s[1..], sep);
      if s[0] != sep {
        assert sep !in [s[0]] + rest[0];
        var pieces := SplitOn(s, sep);
        forall i | 1 <= i < |pieces| ensures sep !in pieces[i] {
          assert pieces[i] == rest[i];
        }
      }
    }
  }

  /** One step of `SplitOn`: a leading separator starts a new piece, any other character
      joins the first piece of the rest. */
  lemma SplitOnCons(c: char, t: string, sep: char)
    ensures SplitOn([c] + t, sep)
         == if c == sep then [""] + SplitOn(t, sep) else [[c] + SplitOn(t, sep)[0]] + SplitOn(t, sep)[1..]
  {
    assert ([c] + t)[0] == c;
    assert ([c] + t)[1..] == t;
  }

  /** The inductive step of `SplitOnConcat`: a character that is not the separator joins
      the first piece on both sides of the equation. */
  lemma SplitOnConcatStep(c: char, t: string, b: string, sep: char)
    requires c != sep
    requires SplitOn(t + [sep] + b, sep) == SplitOn(t, sep) + SplitOn(b, sep)
    ensures SplitOn([c] + (t + [sep] + b), sep) == SplitOn([c] + t, sep) + SplitOn(b, sep)
  {
    SplitOnCons(c, t + [sep] + b, sep);
    SplitOnCons(c, t, sep);
    ExtendFirst([c], SplitOn(t, sep), SplitOn(b, sep));
  }

  /** Extending the first piece of `left + right` extends the first piece of `left`. */
  lemma ExtendFirst(prefix: string, left: seq<string>, right: seq<string>)
    requires |left| >= 1
    ensures [prefix + (left + right)[0]] + (left + right)[1..] == ([prefix + left[0]] + left[1..]) + right
  {
    assert (left + right)[0] == left[0];
    assert (left + right)[1..] == left[1..] + right;
  }

  /** A separator splits the text into the pieces of its left side followed by those of its right side. */
  lemma {:induction false} SplitOnConcat(a: string, b: string, sep: char)
    ensures SplitOn(a + [sep] + b, sep) == SplitOn(a, sep) + SplitOn(b, sep)
  {
    if |a| == 0 {
      assert a + [sep] + b == [sep] + b;
      SplitOnCons(sep, b, sep);
    } else {
      var t := a[1..];
      assert a == [a[0]] + t;
      assert a + [sep] + b == [a[0]] + (t + [sep] + b);
      SplitOnConcat(t, b, sep);
      if a[0] == sep {
        SplitOnCons(sep, t + [sep] + b, sep);
        SplitOnCons(sep, t, sep);
        assert [""] + (SplitOn(t, sep) + SplitOn(b, sep)) == ([""] + SplitOn(t, sep)) + SplitOn(b, sep);
      } else {
        SplitOnConcatStep(a[0], t, b, sep);
      }
    }
  }

  /** A text without the separator is a single piece. */
  lemma {:induction false} SplitOnWithoutSep(p: string, sep: char)
    requires sep !in p
    ensures SplitOn(p, sep) == [p]
  {
    if |p| > 0 {
      assert sep !in p[1..] by {
        forall i | 0 <= i < |p[1..]| ensures p[1..][i] != sep { assert p[1..][i] == p[i + 1]; }
      }
      SplitOnWithoutSep(p[1..], sep);
      assert [p[0]] + p[1..] == p;
    }
  }

  /** Trailing empty pieces removed, as Java's `split` does with a zero limit. */
  function DropTrailingEmpty(pieces: seq<string>): (r: seq<string>)
    ensures r <= pieces
    ensures r != [] ==> r[|r| - 1] != ""
    ensures forall i :: |r| <= i < |pieces| ==> pieces[i] == ""
  {
    if pieces != [] && pieces[|pieces| - 1] == "" then DropTrailingEmpty(pieces[..|pieces| - 1]) else pieces
  }

  /** Java's `s.split(String.valueOf(sep))` for a separator that is not a regular-expression
      metacharacter: no match yields the input itself, otherwise the pieces without trailing empties. */
  function JavaSplit(s: string, sep: char): seq<string> {
    if sep !in s then [s] else DropTrailingEmpty(SplitOn(s, sep))
  }

  /** No piece of Java's split contains the separator. */
  lemma JavaSplitExcludesSep(s: string, sep: char)
    ensures forall i :: 0 <= i < |JavaSplit(s, sep)| ==> sep !in JavaSplit(s, sep)[i]
  {
    if sep in s {
      SplitOnExcludesSep(s, sep);
      var pieces := SplitOn(s, sep);
      var r := DropTrailingEmpty(pieces);
      forall i | 0 <= i < |r| ensures sep !in r[i] {
        assert r[i] == pieces[i];
      }
    }
  }

  /** The pieces that are not blank, in order (`filter(StrUtil::isNotBlank)`). */
  function NonBlank(pieces: seq<string>): (r: seq<string>)
    ensures |r| <= |pieces|
  {
    if pieces == [] then []
    else (if IsBlank(pieces[0]) then [] else [pieces[0]]) + NonBlank(pieces[1..])
  }

  /** The filter keeps only pieces of its input, and only non-blank ones. */
  lemma {:induction false} NonBlankKeeps(pieces: seq<string>)
    ensures forall i :: 0 <= i < |NonBlank(pieces)| ==> NonBlank(pieces)[i] in pieces && !IsBlank(NonBlank(pieces)[i])
  {
    if pieces != [] {
      NonBlankKeeps(pieces[1..]);
      var head := if IsBlank(pieces[0]) then [] else [pieces[0]];
      var rest := NonBlank(pieces[1..]);
      forall i | 0 <= i < |NonBlank(pieces)| ensures NonBlank(pieces)[i] in pieces && !IsBlank(NonBlank(pieces)[i]) {
        if i < |head| {
          assert NonBlank(pieces)[i] == pieces[0];
        } else {
          assert NonBlank(pieces)[i] == rest[i - |head|];
          assert rest[i - |head|] in pieces[1..];
        }
      }
    }
  }

  lemma {:induction false} NonBlankConcat(a: seq<string>, b: seq<string>)
    ensures NonBlank(a + b) == NonBlank(a) + NonBlank(b)
  {
    if a != [] {
      assert (a + b)[1..] == a[1..] + b;
      NonBlankConcat(a[1..], b);
    } else {
      assert a + b == b;
    }
  }

  /** Dropping trailing empty pieces never changes what survives the blank filter. */
  lemma {:induction false} NonBlankIgnoresTrailingEmpty(pieces: seq<string>)
    ensures NonBlank(DropTrailingEmpty(pieces)) == NonBlank(pieces)
    decreases |pieces|
  {
    if pieces != [] && pieces[|pieces| - 1] == "" {
      var init := pieces[..|pieces| - 1];
      assert DropTrailingEmpty(pieces) == DropTrailingEmpty(init);
      NonBlankIgnoresTrailingEmpty(init);
      assert pieces == init + [""];
      NonBlankConcat(init, [""]);
      assert IsBlank("");
      assert NonBlank([""]) == [] + NonBlank([]);
    }
  }

  /** Java's split differs from `SplitOn` only in pieces the blank filter removes anyway. */
  lemma JavaSplitNonBlank(s: string, sep: char)
    ensures NonBlank(JavaSplit(s, sep)) == NonBlank(SplitOn(s, sep))
  {
    if sep !in s {
      SplitOnWithoutSep(s, sep);
    } else {
      NonBlankIgnoresTrailingEmpty(SplitOn(s, sep));
    }
  }

  // ---------------------------------------------------------------------------
  // Path segments

  /** One step of the blank filter. */
  lemma NonBlankCons(p: string, rest: seq<string>)
    ensures NonBlank([p] + rest) == (if IsBlank(p) then [] else [p]) + NonBlank(rest)
  {
    assert ([p] + rest)[1..] == rest;
  }

  /** An empty piece never survives the blank filter. */
  lemma NonBlankSkipsEmpty(pa: seq<string>, pb: seq<string>)
    ensures NonBlank(pa + ([""] + pb)) == NonBlank(pa + pb)
  {
    NonBlankConcat(pa, [""] + pb);
    NonBlankConcat(pa, pb);
    assert IsBlank("");
    NonBlankCons("", pb);
  }

  /** `/x` splits into an empty piece and `x`. */
  lemma PathPieces1(x: string)
    requires '/' !in x
    ensures SplitOn("/" + x, '/') == ["", x]
  {
    assert "/" + x == "" + ['/'] + x;
    SplitOnConcat("", x, '/');
    SplitOnWithoutSep(x, '/');
  }

  /** `/x/y` splits into an empty piece, `x` and `y`. */
  lemma PathPieces2(x: string, y: string)
    requires '/' !in x && '/' !in y
    ensures SplitOn("/" + x + "/" + y, '/') == ["", x, y]
  {
    assert "/" + x + "/" + y == "" + ['/'] + (x + ['/'] + y);
    SplitOnConcat("", x + ['/'] + y, '/');
    SplitOnConcat(x, y, '/');
    SplitOnWithoutSep(x, '/');
    SplitOnWithoutSep(y, '/');
  }

  /** `/x/y/z` splits into an empty piece, `x`, `y` and `z`. */
  lemma PathPieces3(x: string, y: string, z: string)
    requires '/' !in x && '/' !in y && '/' !in z
    ensures SplitOn("/" + x + "/" + y + "/" + z, '/') == ["", x, y, z]
  {
    assert "/" + x + "/" + y + "/" + z == ("/" + x) + ['/'] + (y + ['/'] + z);
    SplitOnConcat("/" + x, y + ['/'] + z, '/');
    PathPieces1(x);
    SplitOnConcat(y, z, '/');
    SplitOnWithoutSep(y, '/');
    SplitOnWithoutSep(z, '/');
  }

  /** A slash between two texts splits them apart. */
  lemma SingleSlashPieces(a: string, b: string)
    ensures SplitOn(a + "/" + b, '/') == SplitOn(a, '/') + SplitOn(b, '/')
  {
    assert a + "/" + b == a + ['/'] + b;
    SplitOnConcat(a, b, '/');
  }

  /** A doubled slash between two texts adds one empty piece between their pieces. */
  lemma DoubleSlashPieces(a: string, b: string)
    ensures SplitOn(a + "//" + b, '/') == SplitOn(a, '/') + ([""] + SplitOn(b, '/'))
  {
    assert a + "//" + b == a + ['/'] + ("" + ['/'] + b);
    SplitOnConcat(a, "" + ['/'] + b, '/');
    SplitOnConcat("", b, '/');
  }

  // ---------------------------------------------------------------------------
  // Decimal rendering of integers (Java's `Integer.toString`)

  predicate IsDigit(c: char) { '0' <= c <= '9' }

  function DigitChar(d: nat): (c: char)
    requires d < 10
    ensures IsDigit(c) && (c as int) - ('0' as int) == d
  {
    (('0' as int) + d) as char
  }

  /** The decimal digits of `n`, most significant first, without leading zeros. */
  function NatDigits(n: nat): (r: string)
    ensures |r| >= 1
    ensures forall i :: 0 <= i < |r| ==> IsDigit(r[i])
    ensures |r| > 1 ==> r[0] != '0'
  {
    if n < 10 then [DigitChar(n)] else NatDigits(n / 10) + [DigitChar(n % 10)]
  }

  /** Java's `Integer.toString(n)`: a minus sign for negative values, then the digits of the magnitude. */
  function IntToString(n: int): string {
    if n < 0 then "-" + NatDigits(-n) else NatDigits(n)
  }

  /** The value of a string of decimal digits. */
  function DigitsValue(s: string): nat
    requires forall i :: 0 <= i < |s| ==> IsDigit(s[i])
  {
    if s == [] then 0
    else
      assert IsDigit(s[|s| - 1]);
      DigitsValue(s[..|s| - 1]) * 10 + ((s[|s| - 1] as int) - ('0' as int))
  }

  /** Java's `Integer.parseInt` on the strings `IntToString` produces. */
  function ParseInt(s: string): int
    requires |s| >= 1
    requires s[0] == '-' ==> forall i :: 1 <= i < |s| ==> IsDigit(s[i])
    requires s[0] != '-' ==> forall i :: 0 <= i < |s| ==> IsDigit(s[i])
  {
    if s[0] == '-' then 0 - DigitsValue(s[1..]) else DigitsValue(s)
  }

  lemma {:induction false} NatDigitsRoundTrip(n: nat)
    ensures DigitsValue(NatDigits(n)) == n
  {
    if n >= 10 {
      NatDigitsRoundTrip(n / 10);
      var r := NatDigits(n);
      assert r[..|r| - 1] == NatDigits(n / 10);
    }
  }

  /** A decimal rendering holds only a sign and digits, never a `,`. */
  lemma IntToStringHasNoComma(n: int)
    ensures forall i :: 0 <= i < |IntToString(n)| ==> IntToString(n)[i] != ','
  {
    var r := IntToString(n);
    if n < 0 {
      forall i | 1 <= i < |r| ensures r[i] != ',' { assert r[i] == NatDigits(-n)[i - 1]; }
    }
  }

  /** Rendering an integer in decimal loses nothing: parsing it back gives the integer. */
  lemma IntToStringRoundTrip(n: int)
    ensures |IntToString(n)| >= 1
    ensures ParseInt(IntToString(n)) == n
  {
    if n < 0 {
      NatDigitsRoundTrip(-n);
      assert IntToString(n)[1..] == NatDigits(-n);
    } else {
      NatDigitsRoundTrip(n);
    }
  }
}
