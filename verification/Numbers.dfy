/** Numbers in decimal. */
module Numbers {
  import opened Options

  function Digits(n: nat): (s: string)
    ensures |s| >= 1
  {
    var digit := '0' + (n % 10) as char;
    if n < 10 then [digit] else Digits(n / 10) + [digit]
  }

  /** The number that decimal digits stand for. */
  function Value(s: string): Option<nat>
    decreases |s|
  {
    if s == "" || !('0' <= s[|s| - 1] <= '9') then None
    else
      var low := s[|s| - 1] as nat - '0' as nat;
      if |s| == 1 then Some(low)
      else if Value(s[..|s| - 1]).None? then None
      else Some(Value(s[..|s| - 1]).value * 10 + low)
  }

  predicate AllDigits(s: string) {
    forall k :: 0 <= k < |s| ==> '0' <= s[k] <= '9'
  }

  lemma {:induction false} DigitsValue(n: nat)
    ensures Value(Digits(n)) == Some(n) && AllDigits(Digits(n))
  {
    var digit := '0' + (n % 10) as char;
    assert digit as nat == '0' as nat + n % 10;
    if n >= 10 {
      DigitsValue(n / 10);
      var high := Digits(n / 10);
      assert (high + [digit])[..|high|] == high;
    }
  }
}
