/** The string operations of the JavaScript library that the parsers rely on. */
module Text {

  /** The characters matched by `\s` and removed by `String.prototype.trim`. */
  predicate IsSpace(c: char) {
    || c in {' ', '\t', '\n', '\r', '\U{0B}', '\U{0C}', '\U{A0}', '\U{1680}', '\U{FEFF}'}
    || '\U{2000}' <= c <= '\U{200A}'
    || c in {'\U{2028}', '\U{2029}', '\U{202F}', '\U{205F}', '\U{3000}'}
  }

  function TrimStart(s: string): string {
    if s != "" && IsSpace(s[0]) then TrimStart(s[1..]) else s
  }

  function TrimEnd(s: string): string {
    if s != "" && IsSpace(s[|s| - 1]) then TrimEnd(s[..|s| - 1]) else s
  }

  function Trim(s: string): string {
    TrimEnd(TrimStart(s))
  }

  /** No white space at either end. */
  predicate Trimmed(s: string) {
    s != "" ==> !IsSpace(s[0]) && !IsSpace(s[|s| - 1])
  }

  lemma TrimStartShortens(s: string)
    ensures |TrimStart(s)| <= |s|
  {
  }

  lemma TrimEnds(s: string)
    ensures TrimStart(s) != "" ==> !IsSpace(TrimStart(s)[0])
    ensures TrimEnd(s) != "" ==> !IsSpace(TrimEnd(s)[|TrimEnd(s)| - 1])
    decreases |s|
  {
    if s != "" {
      TrimEnds(s[1..]);
      TrimEnds(s[..|s| - 1]);
    }
  }

  lemma TrimIsTrimmed(s: string)
    ensures Trimmed(Trim(s))
    ensures Trim(s) == Trim(TrimEnd(s))
  {
    TrimEndCommutes(s);
    TrimEndIdempotent(TrimStart(s));
    TrimEnds(TrimStart(s));
    TrimEnds(TrimEnd(s));
  }

  lemma TrimEndIdempotent(s: string)
    ensures TrimEnd(TrimEnd(s)) == TrimEnd(s)
  {
  }

  /** Trimming the two ends are independent operations. */
  lemma {:induction false} TrimEndCommutes(s: string)
    ensures TrimEnd(TrimStart(s)) == TrimStart(TrimEnd(s))
    decreases |s|
  {
    if s != "" && IsSpace(s[0]) {
      TrimEndCommutes(s[1..]);
      TrimEndDropsLeading(s);
    } else if s != "" {
      TrimEndKeepsFirst(s);
    }
  }

  lemma {:induction false} TrimEndKeepsFirst(s: string)
    requires s != "" && !IsSpace(s[0])
    ensures TrimEnd(s) != "" && TrimEnd(s)[0] == s[0]
    decreases |s|
  {
    if IsSpace(s[|s| - 1]) {
      TrimEndKeepsFirst(s[..|s| - 1]);
    }
  }

  lemma {:induction false} TrimEndDropsLeading(s: string)
    requires s != "" && IsSpace(s[0])
    ensures TrimStart(TrimEnd(s)) == TrimStart(TrimEnd(s[1..]))
    decreases |s|
  {
    if |s| == 1 {
      assert s[..0] == "" && s[1..] == "";
    } else if IsSpace(s[|s| - 1]) {
      assert s[1..][..|s| - 2] == s[..|s| - 1][1..];
      TrimEndDropsLeading(s[..|s| - 1]);
    }
  }

  lemma {:induction false} AllSpace(s: string)
    requires forall c | c in s :: IsSpace(c)
    ensures TrimEnd(s) == "" && TrimStart(s) == "" && Trim(s) == ""
    decreases |s|
  {
    hide IsSpace;
    if s != "" {
      assert s[0] in s && s[|s| - 1] in s;
      assert forall c | c in s[1..] :: c in s;
      assert forall c | c in s[..|s| - 1] :: c in s;
      AllSpace(s[1..]);
      AllSpace(s[..|s| - 1]);
    }
  }

  lemma {:induction false} VisibleEndSurvives(s: string)
    requires s != "" && !IsSpace(s[|s| - 1])
    ensures Trim(s) != ""
  {
    if IsSpace(s[0]) {
      VisibleEndSurvives(s[1..]);
    }
  }

  /** Nothing is left of a text exactly when all of it is white space. */
  lemma {:induction false} BlankMeansAllSpace(s: string)
    ensures Trim(s) == "" <==> forall c | c in s :: IsSpace(c)
  {
    hide IsSpace;
    if forall c | c in s :: IsSpace(c) {
      AllSpace(s);
    } else if s != "" {
      if IsSpace(s[0]) {
        assert s == [s[0]] + s[1..];
        BlankMeansAllSpace(s[1..]);
      } else {
        TrimEndKeepsFirst(s);
      }
    }
  }

  function Spaces(n: nat): string {
    seq(n, _ => ' ')
  }

  /** Padding on the left goes away; the number of characters removed is the indentation. */
  lemma {:induction false} TrimIndented(n: nat, s: string)
    requires Trimmed(s)
    ensures TrimStart(Spaces(n) + s) == s
    ensures Trim(Spaces(n) + s) == s
  {
    if n > 0 {
      assert (Spaces(n) + s)[1..] == Spaces(n - 1) + s;
      TrimIndented(n - 1, s);
    } else {
      assert Spaces(0) + s == s;
    }
  }

  /** Padding on the right goes away as well. */
  lemma {:induction false} TrimPadded(s: string, n: nat)
    requires Trimmed(s)
    ensures TrimEnd(s + Spaces(n)) == s
    ensures Trim(s + Spaces(n)) == s
  {
    TrimEndCommutes(s + Spaces(n));
    if n > 0 {
      assert (s + Spaces(n))[..|s| + n - 1] == s + Spaces(n - 1);
      TrimPadded(s, n - 1);
    } else {
      assert s + Spaces(0) == s;
    }
  }

  /** The index of the first occurrence of `c`, or -1. */
  function IndexOf(s: string, c: char): (i: int)
    ensures -1 <= i < |s|
  {
    if s == "" then -1
    else if s[0] == c then 0
    else
      var i := IndexOf(s[1..], c);
      if i == -1 then -1 else i + 1
  }

  lemma {:induction false} IndexOfFirst(s: string, c: char, i: nat)
    requires i < |s| && s[i] == c && c !in s[..i]
    ensures IndexOf(s, c) == i
  {
    if i > 0 {
      assert s[0] in s[..i];
      assert s[1..][..i - 1] == s[..i][1..];
      IndexOfFirst(s[1..], c, i - 1);
    }
  }

  lemma IndexOfHit(s: string, c: char)
    ensures IndexOf(s, c) != -1 ==> s[IndexOf(s, c)] == c
  {
  }

  lemma {:induction false} IndexOfAbsent(s: string, c: char)
    requires c !in s
    ensures IndexOf(s, c) == -1
  {
    if s != "" {
      IndexOfAbsent(s[1..], c);
    }
  }

  predicate IsDigit(c: char) {
    '0' <= c <= '9'
  }

  predicate AllDigits(s: string) {
    s != "" && forall i | 0 <= i < |s| :: IsDigit(s[i])
  }

  /** The value of a digit string, most significant digit first. */
  function DigitsValue(s: string): nat
    requires forall i | 0 <= i < |s| :: IsDigit(s[i])
  {
    if s == "" then 0
    else
      assert IsDigit(s[|s| - 1]);
      10 * DigitsValue(s[..|s| - 1]) + (s[|s| - 1] as int - '0' as int)
  }

  function DigitsText(n: nat): (s: string)
    ensures AllDigits(s)
  {
    var last := [('0' as int + n % 10) as char];
    if n < 10 then last else DigitsText(n / 10) + last
  }

  lemma {:induction false} DigitsRoundTrip(n: nat)
    ensures DigitsValue(DigitsText(n)) == n
  {
    var s := DigitsText(n);
    if n < 10 {
      assert s[..0] == "";
    } else {
      DigitsRoundTrip(n / 10);
      assert s[..|s| - 1] == DigitsText(n / 10);
    }
  }
}
