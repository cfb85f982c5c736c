/**
 * The Qt string operations the classifier and the send path rely on:
 * `QStringList::join(" ")` (src/controller.cpp:179),
 * `QString::split(' ', QString::SkipEmptyParts)` (src/controller.cpp:193) and
 * decimal rendering of an int by `QString::arg` (src/controller.cpp:178).
 */
module Strings {

  /** The parts joined with a single space between neighbours. */
  function Join(parts: seq<string>): string {
    if |parts| == 0 then ""
    else if |parts| == 1 then parts[0]
    else parts[0] + " " + Join(parts[1..])
  }

  /** A token as the splitter returns it: non-empty, with no space in it. */
  predicate IsWord(w: string) {
    |w| > 0 && ' ' !in w
  }

  /**
   * Splits `s` at every space, dropping empty parts; `word` holds the
   * characters of the part read so far.
   */
  function SplitFrom(s: string, word: string): (r: seq<string>)
    requires ' ' !in word
    ensures forall i :: 0 <= i < |r| ==> IsWord(r[i])
    decreases |s|
  {
    if |s| == 0 then (if |word| == 0 then [] else [word])
    else if s[0] == ' ' then
      (if |word| == 0 then SplitFrom(s[1..], "") else [word] + SplitFrom(s[1..], ""))
    else SplitFrom(s[1..], word + [s[0]])
  }

  /** `s.split(' ', QString::SkipEmptyParts)`. */
  function Split(s: string): (r: seq<string>)
    ensures forall i :: 0 <= i < |r| ==> IsWord(r[i])
  {
    SplitFrom(s, "")
  }

  /** Characters without a space run on into the part being read. */
  lemma {:induction false} SplitWord(w: string, rest: string, word: string)
    requires ' ' !in w && ' ' !in word
    ensures SplitFrom(w + rest, word) == SplitFrom(rest, word + w)
    decreases |w|
  {
    if |w| == 0 {
      assert w + rest == rest && word + w == word;
    } else {
      assert (w + rest)[0] == w[0] && (w + rest)[1..] == w[1..] + rest;
      SplitWord(w[1..], rest, word + [w[0]]);
      assert word + [w[0]] + w[1..] == word + w;
    }
  }

  /** Splitting undoes joining, for parts that are words. */
  lemma {:induction false} SplitJoin(parts: seq<string>)
    requires forall i :: 0 <= i < |parts| ==> IsWord(parts[i])
    ensures Split(Join(parts)) == parts
  {
    if |parts| == 1 {
      SplitWord(parts[0], "", "");
      assert parts[0] + "" == parts[0] && "" + parts[0] == parts[0];
    } else if |parts| > 1 {
      var p, rest := parts[0], Join(parts[1..]);
      assert Join(parts) == p + (" " + rest);
      SplitWord(p, " " + rest, "");
      assert "" + p == p;
      assert (" " + rest)[0] == ' ' && (" " + rest)[1..] == rest;
      assert SplitFrom(" " + rest, p) == [p] + SplitFrom(rest, "");
      SplitJoin(parts[1..]);
      assert parts == [p] + parts[1..];
    }
  }

  /**
   * A space ends the part being read: what comes before it and what comes
   * after it are split independently, and the space itself yields no part.
   */
  lemma {:induction false} SplitFromAtSpace(a: string, b: string, word: string)
    requires ' ' !in word
    ensures SplitFrom(a + " " + b, word) == SplitFrom(a, word) + SplitFrom(b, "")
    decreases |a|
  {
    if |a| == 0 {
      assert a + " " + b == " " + b;
      assert (" " + b)[0] == ' ' && (" " + b)[1..] == b;
    } else {
      assert (a + " " + b)[0] == a[0] && (a + " " + b)[1..] == a[1..] + " " + b;
      if a[0] == ' ' {
        SplitFromAtSpace(a[1..], b, "");
      } else {
        SplitFromAtSpace(a[1..], b, word + [a[0]]);
      }
    }
  }

  /**
   * `split(' ', SkipEmptyParts)` at a space: the parts of the text are the
   * parts before the space followed by the parts after it. With
   * `SplitOfWord` this fixes the result on every text, whatever its
   * leading, trailing or repeated spaces.
   */
  lemma SplitAtSpace(a: string, b: string)
    ensures Split(a + " " + b) == Split(a) + Split(b)
  {
    SplitFromAtSpace(a, b, "");
  }

  /** A text without spaces is a single part, or none when it is empty. */
  lemma SplitOfWord(w: string)
    requires ' ' !in w
    ensures Split(w) == if |w| == 0 then [] else [w]
  {
    SplitWord(w, "", "");
    assert w + "" == w && "" + w == w;
  }

  /** Three parts joined. */
  lemma JoinThree(a: string, b: string, c: string)
    ensures Join([a, b, c]) == a + " " + b + " " + c
  {
    assert [a, b, c][1..] == [b, c] && [b, c][1..] == [c];
    assert Join([b, c]) == b + " " + c;
    assert a + " " + (b + " " + c) == a + " " + b + " " + c;
  }

  /** Joining one more part puts a single space before it. */
  lemma {:induction false} JoinAppend(init: seq<string>, last: string)
    ensures Join(init + [last]) == if |init| == 0 then last else Join(init) + " " + last
  {
    if |init| == 1 {
      assert init + [last] == [init[0], last] && [init[0], last][1..] == [last];
    } else if |init| > 1 {
      JoinAppend(init[1..], last);
      assert (init + [last])[1..] == init[1..] + [last];
    }
  }

  /**
   * Parts of two characters each, joined: part k fills positions 3k and
   * 3k+1, and a space follows every part but the last.
   */
  lemma {:induction false} JoinTwoCharParts(parts: seq<string>)
    requires forall i :: 0 <= i < |parts| ==> |parts[i]| == 2
    ensures |Join(parts)| == if |parts| == 0 then 0 else 3 * |parts| - 1
    ensures forall k :: 0 <= k < |parts| ==>
      && Join(parts)[3 * k] == parts[k][0]
      && Join(parts)[3 * k + 1] == parts[k][1]
      && (k < |parts| - 1 ==> Join(parts)[3 * k + 2] == ' ')
  {
    if |parts| > 0 {
      var init := parts[..|parts| - 1];
      var last := parts[|parts| - 1];
      JoinTwoCharParts(init);
      assert parts == init + [last];
      JoinAppend(init, last);
      forall k | 0 <= k < |init| ensures init[k] == parts[k] {
      }
    }
  }

  /** Joining a last part that holds one space is joining its two halves. */
  lemma {:induction false} JoinLastSpace(init: seq<string>, a: string, b: string)
    ensures Join(init + [a + " " + b]) == Join(init + [a, b])
  {
    if |init| == 0 {
      assert init + [a + " " + b] == [a + " " + b];
      assert init + [a, b] == [a, b] && [a, b][1..] == [b];
    } else {
      JoinLastSpace(init[1..], a, b);
      assert (init + [a + " " + b])[1..] == init[1..] + [a + " " + b];
      assert (init + [a, b])[1..] == init[1..] + [a, b];
    }
  }

  function DigitChar(d: nat): char
    requires d < 10
  {
    ('0' as int + d) as char
  }

  predicate AllDecimalDigits(s: string) {
    forall i :: 0 <= i < |s| ==> '0' <= s[i] <= '9'
  }

  /** The decimal digits of `n`, most significant first, without leading zeros. */
  function Digits(n: nat): (s: string)
    ensures |s| > 0 && AllDecimalDigits(s)
    ensures |s| > 1 ==> s[0] != '0'
    decreases n
  {
    if n < 10 then [DigitChar(n)] else Digits(n / 10) + [DigitChar(n % 10)]
  }

  /** An int as `QString::arg(int)` writes it: a '-' for negative values, then the digits. */
  function Decimal(n: int): (s: string)
    ensures IsWord(s)
    ensures (s[0] == '-') <==> n < 0
  {
    if n < 0 then "-" + Digits(-n) else Digits(n)
  }

  /** The value of a run of decimal digits, most significant first. */
  function DigitsValue(s: string): nat
    requires AllDecimalDigits(s)
  {
    if |s| == 0 then 0 else DigitsValue(s[..|s| - 1]) * 10 + (s[|s| - 1] as int - '0' as int)
  }

  /** The value of an optionally signed run of decimal digits. */
  function ReadDecimal(s: string): int
    requires |s| > 0
    requires s[0] == '-' ==> AllDecimalDigits(s[1..])
    requires s[0] != '-' ==> AllDecimalDigits(s)
  {
    if s[0] == '-' then -(DigitsValue(s[1..]) as int) else DigitsValue(s)
  }

  lemma {:induction false} DigitsRoundTrip(n: nat)
    ensures DigitsValue(Digits(n)) == n
    decreases n
  {
    if n >= 10 {
      var s := Digits(n);
      assert s[..|s| - 1] == Digits(n / 10);
      DigitsRoundTrip(n / 10);
    }
  }

  /** Reading the decimal rendering of any int gives that int back. */
  lemma DecimalRoundTrip(n: int)
    ensures var s := Decimal(n);
      (s[0] == '-' ==> AllDecimalDigits(s[1..])) && (s[0] != '-' ==> AllDecimalDigits(s))
      && ReadDecimal(s) == n
  {
    if n < 0 {
      assert Decimal(n)[1..] == Digits(-n);
      DigitsRoundTrip(-n);
    } else {
      DigitsRoundTrip(n);
    }
  }
}
