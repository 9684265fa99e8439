/** The string helpers identifiers and keys are built from. */
module Texts {
  import opened Wrappers

  function UpperChar(c: char): char {
    if 'a' <= c <= 'z' then c - 'a' + 'A' else c
  }

  function ToUpper(s: string): (u: string)
    ensures |u| == |s|
  {
    seq(|s|, i requires 0 <= i < |s| => UpperChar(s[i]))
  }

  /** No small letter is left, nothing but small letters has changed, and doing it again changes nothing. */
  lemma UpperFolds(s: string)
    ensures forall i | 0 <= i < |s| :: !('a' <= ToUpper(s)[i] <= 'z')
    ensures forall i | 0 <= i < |s| && !('a' <= s[i] <= 'z') :: ToUpper(s)[i] == s[i]
    ensures forall i | 0 <= i < |s| && 'a' <= s[i] <= 'z' ::
              ToUpper(s)[i] as int - 'A' as int == s[i] as int - 'a' as int
    ensures ToUpper(ToUpper(s)) == ToUpper(s)
  {
  }

  function Digit(n: nat): (c: char)
    requires n < 10
    ensures '0' <= c <= '9'
  {
    "0123456789"[n]
  }

  /** The decimal numeral of n, as the formatting verb %d prints it. */
  function Numeral(n: nat): (s: string)
    ensures s != [] && forall i | 0 <= i < |s| :: '0' <= s[i] <= '9'
  {
    if n < 10 then [Digit(n)] else Numeral(n / 10) + [Digit(n % 10)]
  }

  /** The number a text of digits stands for. */
  function ValueOf(s: string): int {
    if s == [] then 0 else ValueOf(s[..|s| - 1]) * 10 + (s[|s| - 1] as int - '0' as int)
  }

  lemma DigitValue(n: nat)
    requires n < 10
    ensures Digit(n) as int - '0' as int == n
  {
  }

  lemma DigitAppended(s: string, c: char)
    ensures ValueOf(s + [c]) == ValueOf(s) * 10 + (c as int - '0' as int)
  {
    assert (s + [c])[..|s|] == s;
  }

  /** A numeral reads back as the number it was made from. */
  lemma {:induction false} NumeralReadsBack(n: nat)
    ensures ValueOf(Numeral(n)) == n
  {
    DigitValue(n % 10);
    if n < 10 {
      DigitAppended([], Digit(n));
    } else {
      NumeralReadsBack(n / 10);
      DigitAppended(Numeral(n / 10), Digit(n % 10));
    }
  }

  lemma {:induction false} NumeralInjective(m: nat, n: nat)
    requires Numeral(m) == Numeral(n)
    ensures m == n
  {
    var s := Numeral(m);
    assert m >= 10 <==> |s| > 1;
    assert n >= 10 <==> |Numeral(n)| > 1;
    assert m % 10 == n % 10 by { assert s[|s| - 1] == Digit(m % 10) == Digit(n % 10); }
    if m >= 10 {
      assert Numeral(m / 10) == Numeral(n / 10) by {
        assert s[..|s| - 1] == Numeral(m / 10);
        assert Numeral(n)[..|s| - 1] == Numeral(n / 10);
      }
      NumeralInjective(m / 10, n / 10);
    }
  }

  /** A numeral followed by a bar can be read back: the two texts agree only if the numerals do. */
  lemma BarTerminatesNumeral(m: nat, n: nat, s: string, t: string)
    requires Numeral(m) + "|" + s == Numeral(n) + "|" + t
    ensures m == n && s == t
  {
    var a, b := Numeral(m), Numeral(n);
    var whole := a + "|" + s;
    assert whole == b + "|" + t;
    assert whole[|a|] == '|' && whole[|b|] == '|';
    assert forall i | 0 <= i < |a| :: whole[i] == a[i];
    assert forall i | 0 <= i < |b| :: whole[i] == b[i];
    assert a == whole[..|a|] == b;
    assert s == whole[|a| + 1..] == t;
    NumeralInjective(m, n);
  }

  predicate IsSpace(c: char) {
    c == ' ' || '\t' <= c <= '\r'
  }

  /** A text column whose blank value is stored as NULL. */
  function NullIfBlank(s: string): Option<string> {
    if forall c <- s :: IsSpace(c) then None else Some(s)
  }

  /** Spaces, tabs and line ends alone are stored as nothing; any other text is stored as it is. */
  lemma BlankIsNothing(s: string)
    ensures (forall c <- s :: c in {' ', '\t', '\n', '\r'}) ==> NullIfBlank(s) == None
    ensures (exists c :: c in s && '!' <= c <= '~') ==> NullIfBlank(s) == Some(s)
  {
  }

  /** The first eight characters of an identifier, or all of a shorter one. */
  function ShortId(id: string): string {
    if |id| >= 8 then id[..8] else id
  }

  lemma ShortIdIsPrefix(id: string)
    ensures ShortId(id) <= id && |ShortId(id)| == if |id| < 8 then |id| else 8
  {
  }
}
