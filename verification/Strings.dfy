/**
 The string library calls the console relies on: splitting and joining on a separator,
 prefix tests, and decimal numerals, with the inversion laws the other modules need.
 */
module Strings {

  datatype Option<+T> = None | Some(value: T)

  /** Go's `strings.Split` and JavaScript's `split` for a one-character separator: `""` splits to `[""]`. */
  function Split(s: string, sep: char): (pieces: seq<string>)
    ensures |pieces| >= 1
  {
    if s == "" then [""]
    else
      var rest := Split(s[1..], sep);
      if s[0] == sep then [""] + rest else [[s[0]] + rest[0]] + rest[1..]
  }

  function Join(pieces: seq<string>, sep: string): string {
    if |pieces| == 0 then ""
    else if |pieces| == 1 then pieces[0]
    else pieces[0] + sep + Join(pieces[1..], sep)
  }

  predicate HasPrefix(s: string, prefix: string) {
    |prefix| <= |s| && s[..|prefix|] == prefix
  }

  /** A separator-free head is the first piece. */
  lemma {:induction false} SplitHead(head: string, tail: string, sep: char)
    requires sep !in head
    ensures Split(head + [sep] + tail, sep) == [head] + Split(tail, sep)
    ensures Split(head, sep) == [head]
  {
    if head == "" {
      assert (head + [sep] + tail)[1..] == tail;
    } else {
      assert (head + [sep] + tail)[1..] == head[1..] + [sep] + tail;
      SplitHead(head[1..], tail, sep);
      assert [head[0]] + head[1..] == head;
    }
  }

  /** Splitting undoes joining. */
  lemma {:induction false} SplitJoin(pieces: seq<string>, sep: char)
    requires |pieces| > 0
    requires forall i :: 0 <= i < |pieces| ==> sep !in pieces[i]
    ensures Split(Join(pieces, [sep]), sep) == pieces
  {
    if |pieces| == 1 {
      SplitHead(pieces[0], "", sep);
    } else {
      SplitJoin(pieces[1..], sep);
      SplitHead(pieces[0], Join(pieces[1..], [sep]), sep);
    }
  }

  /** Joining undoes splitting, and no piece holds the separator. */
  lemma {:induction false} JoinSplit(s: string, sep: char)
    ensures Join(Split(s, sep), [sep]) == s
    ensures forall i :: 0 <= i < |Split(s, sep)| ==> sep !in Split(s, sep)[i]
  {
    hide Join;
    if s == "" {
      JoinedOne("", [sep]);
    } else {
      JoinSplit(s[1..], sep);
      var rest := Split(s[1..], sep);
      assert [s[0]] + s[1..] == s;
      if s[0] == sep {
        JoinedMore("", rest, [sep]);
        assert "" + [sep] + s[1..] == s;
      } else {
        JoinedLonger(s[0], rest, [sep]);
      }
    }
  }

  lemma {:induction false} JoinedOne(piece: string, sep: string)
    ensures Join([piece], sep) == piece
  {
  }

  lemma {:induction false} JoinedMore(piece: string, rest: seq<string>, sep: string)
    requires rest != []
    ensures Join([piece] + rest, sep) == piece + sep + Join(rest, sep)
  {
    assert ([piece] + rest)[1..] == rest;
  }

  lemma {:induction false} JoinedLonger(c: char, pieces: seq<string>, sep: string)
    requires pieces != []
    ensures Join([[c] + pieces[0]] + pieces[1..], sep) == [c] + Join(pieces, sep)
  {
    var longer := [[c] + pieces[0]] + pieces[1..];
    assert longer[1..] == pieces[1..];
    if |pieces| > 1 {
      assert [c] + pieces[0] + sep + Join(pieces[1..], sep) == [c] + (pieces[0] + sep + Join(pieces[1..], sep));
    }
  }

  predicate IsDigit(c: char) { '0' <= c <= '9' }

  predicate AllDigits(s: string) { forall i :: 0 <= i < |s| ==> IsDigit(s[i]) }

  function Digit(n: nat): (c: char)
    requires n < 10
    ensures IsDigit(c)
  {
    '0' + n as char
  }

  function Decimal(n: nat): (s: string)
    ensures s != "" && AllDigits(s)
  {
    if n < 10 then [Digit(n)] else Decimal(n / 10) + [Digit(n % 10)]
  }

  /** The unbounded number a digit string denotes. */
  function NumberOf(s: string): nat
    requires AllDigits(s)
  {
    if s == "" then 0
    else NumberOf(s[..|s| - 1]) * 10 + (s[|s| - 1] as int - '0' as int)
  }

  lemma {:induction false} NumberOfDecimal(n: nat)
    ensures NumberOf(Decimal(n)) == n
  {
    if n >= 10 {
      NumberOfDecimal(n / 10);
      assert Decimal(n)[..|Decimal(n)| - 1] == Decimal(n / 10);
    }
  }

  function PowerOfTen(n: nat): nat {
    if n == 0 then 1 else 10 * PowerOfTen(n - 1)
  }

  lemma {:induction false} OneMoreDigit(s: string, c: char)
    requires AllDigits(s) && IsDigit(c)
    ensures NumberOf(s + [c]) == NumberOf(s) * 10 + (c as int - '0' as int)
  {
    assert (s + [c])[..|s|] == s;
  }

  /** Digits count by their place: what follows a numeral shifts it to the left. */
  lemma {:induction false} NumeralsCompose(s: string, t: string)
    requires AllDigits(s) && AllDigits(t)
    ensures NumberOf(s + t) == NumberOf(s) * PowerOfTen(|t|) + NumberOf(t)
    decreases |t|
  {
    hide NumberOf;
    if t == "" {
      assert s + t == s && NumberOf(t) == 0 by { EmptyNumeral(); }
    } else {
      var front, last := t[..|t| - 1], t[|t| - 1];
      NumeralsCompose(s, front);
      OneMoreDigit(s + front, last);
      OneMoreDigit(front, last);
      assert s + t == s + front + [last] && t == front + [last];
      Shifted(NumberOf(s), PowerOfTen(|front|), NumberOf(front));
    }
  }

  lemma EmptyNumeral()
    ensures NumberOf("") == 0
  {
  }

  lemma Shifted(n: nat, p: nat, m: nat)
    ensures (n * p + m) * 10 == n * (10 * p) + m * 10
  {
  }

  lemma {:induction false} NumeralOfOne(d: nat)
    requires d < 10
    ensures Digit(d) == "0123456789"[d] && NumberOf([Digit(d)]) == d
  {
    assert [Digit(d)][..0] == "";
  }

  /** A numeral is written without leading zeros. */
  lemma {:induction false} NoLeadingZero(n: nat)
    ensures |Decimal(n)| > 1 ==> Decimal(n)[0] != '0'
    ensures n > 0 ==> Decimal(n)[0] != '0'
  {
    if n >= 10 {
      NoLeadingZero(n / 10);
    }
  }
}
