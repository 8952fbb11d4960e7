/** Octal numbers as the bytes of their digits. */
module Octal {
  import opened Wrappers

  const ZERO: byte := 48

  predicate IsDigit(b: byte) {
    48 <= b < 56
  }

  function Digits(n: nat): (s: seq<byte>)
    ensures s != []
  {
    if n < 8 then [48 + n] else Digits(n / 8) + [48 + n % 8]
  }

  /** The number a string of digits stands for. */
  function Value(s: seq<byte>): nat
    requires forall k :: 0 <= k < |s| ==> IsDigit(s[k])
  {
    if s == [] then 0
    else
      var last: int := s[|s| - 1];
      assert IsDigit(s[|s| - 1]);
      8 * Value(s[..|s| - 1]) + last - 48
  }

  function Zeros(n: nat): seq<byte> {
    seq(n, _ => ZERO)
  }

  /** padStart with the digit zero. */
  function Padded(s: seq<byte>, width: nat): seq<byte> {
    if |s| < width then Zeros(width - |s|) + s else s
  }

  function Pow8(k: nat): nat {
    if k == 0 then 1 else 8 * Pow8(k - 1)
  }

  lemma {:induction false} DigitsOnly(n: nat)
    ensures forall k :: 0 <= k < |Digits(n)| ==> IsDigit(Digits(n)[k])
  {
    if n >= 8 {
      DigitsOnly(n / 8);
    }
  }

  lemma {:induction false} ValueOfDigits(n: nat)
    ensures forall k :: 0 <= k < |Digits(n)| ==> IsDigit(Digits(n)[k])
    ensures Value(Digits(n)) == n
  {
    DigitsOnly(n);
    if n >= 8 {
      ValueOfDigits(n / 8);
      assert Digits(n)[..|Digits(n)| - 1] == Digits(n / 8);
    }
  }

  /** So many digits for numbers below that power of eight, and no more. */
  lemma {:induction false} DigitsWidth(n: nat, width: nat)
    requires width >= 1
    ensures |Digits(n)| <= width <==> n < Pow8(width)
    decreases width
  {
    if width == 1 {
      assert Pow8(1) == 8 * Pow8(0);
    } else if n >= 8 {
      DigitsWidth(n / 8, width - 1);
    } else {
      Pow8Grows(width);
    }
  }

  lemma {:induction false} Pow8Grows(k: nat)
    requires k >= 1
    ensures Pow8(k) >= 8
  {
    if k > 1 {
      Pow8Grows(k - 1);
    }
  }

  lemma {:induction false} ValueOfPadded(zeros: nat, s: seq<byte>)
    requires forall k :: 0 <= k < |s| ==> IsDigit(s[k])
    ensures Value(Zeros(zeros) + s) == Value(s)
    decreases zeros + |s|
  {
    var padded := Zeros(zeros) + s;
    if s == [] {
      if zeros > 0 {
        ValueOfPadded(zeros - 1, s);
        assert padded[..|padded| - 1] == Zeros(zeros - 1) + s;
      }
    } else {
      ValueOfPadded(zeros, s[..|s| - 1]);
      assert padded[..|padded| - 1] == Zeros(zeros) + s[..|s| - 1];
    }
  }

  /** Padding changes the width, never the number. */
  lemma PaddedValue(n: nat, width: nat)
    ensures var s := Padded(Digits(n), width);
      && (forall k :: 0 <= k < |s| ==> IsDigit(s[k])) && Value(s) == n
      && |s| == (if |Digits(n)| < width then width else |Digits(n)|)
  {
    ValueOfDigits(n);
    if |Digits(n)| < width {
      ValueOfPadded(width - |Digits(n)|, Digits(n));
    }
  }

  lemma {:induction false} PrefixIsSmaller(s: seq<byte>, k: nat)
    requires k <= |s| && forall j :: 0 <= j < |s| ==> IsDigit(s[j])
    ensures Value(s[..k]) <= Value(s)
    decreases |s|
  {
    if k < |s| {
      PrefixIsSmaller(s[..|s| - 1], k);
      assert s[..|s| - 1][..k] == s[..k];
    } else {
      assert s[..k] == s;
    }
  }

  /** Leaving digits off the end loses part of the number, unless it was zero. */
  lemma ProperPrefixIsSmaller(s: seq<byte>, k: nat)
    requires k < |s| && (forall j :: 0 <= j < |s| ==> IsDigit(s[j])) && Value(s) > 0
    ensures Value(s[..k]) < Value(s)
  {
    PrefixIsSmaller(s[..|s| - 1], k);
    assert s[..|s| - 1][..k] == s[..k];
  }
}
