/** The `utils` helpers of script.js: decimal rendering of counters, the
    `m:ss` clock format, and the in-place Fisher-Yates shuffle. */
module Utils {

  datatype Option<T> = None | Some(value: T)

  predicate IsDigit(c: char) {
    '0' <= c <= '9'
  }

  predicate AllDigits(s: string) {
    forall k :: 0 <= k < |s| ==> IsDigit(s[k])
  }

  function DigitChar(d: nat): (c: char)
    requires d < 10
    ensures IsDigit(c) && c as int - '0' as int == d
  {
    ('0' as int + d) as char
  }

  function DigitValue(c: char): nat
    requires IsDigit(c)
  {
    c as int - '0' as int
  }

  /** `n.toString()` for a non-negative integer: decimal digits, no leading zero. */
  function NatToString(n: nat): (s: string)
    ensures |s| >= 1 && AllDigits(s)
    ensures |s| == 1 <==> n < 10
    ensures s[0] == '0' ==> n == 0
  {
    if n < 10 then [DigitChar(n)] else NatToString(n / 10) + [DigitChar(n % 10)]
  }

  /** Value of a string of decimal digits, most significant digit first;
      None as soon as a character is not a digit. */
  function ParseDigits(s: string): Option<nat> {
    if s == [] then Some(0)
    else if !IsDigit(s[|s| - 1]) then None
    else match ParseDigits(s[..|s| - 1])
      case None => None
      case Some(p) => Some(p * 10 + DigitValue(s[|s| - 1]))
  }

  /** Reads back a non-empty decimal string. */
  function ParseNat(s: string): Option<nat> {
    if s == [] then None else ParseDigits(s)
  }

  lemma {:induction false} NatToStringRoundTrip(n: nat)
    ensures ParseNat(NatToString(n)) == Some(n)
  {
    var s := NatToString(n);
    if n < 10 {
      assert s[..0] == [];
      assert ParseDigits(s[..0]) == Some(0);
      assert IsDigit(s[0]) && DigitValue(s[0]) == n;
    } else {
      NatToStringRoundTrip(n / 10);
      assert s[..|s| - 1] == NatToString(n / 10);
      assert ParseDigits(s[..|s| - 1]) == Some(n / 10);
      assert DigitValue(s[|s| - 1]) == n % 10;
      assert (n / 10) * 10 + n % 10 == n;
    }
  }

  /** `s.padStart(2, '0')`: left-pads with '0' up to two characters and
      leaves longer strings alone. */
  function PadStart2(s: string): (r: string)
    ensures |r| == if |s| >= 2 then |s| else 2
    ensures r[|r| - |s|..] == s
    ensures forall k :: 0 <= k < |r| - |s| ==> r[k] == '0'
  {
    if |s| >= 2 then s else seq(2 - |s|, _ => '0') + s
  }

  /** `utils.formatTime`: minutes, a colon, and the remaining seconds
      left-padded to two digits. */
  function FormatTime(seconds: nat): (r: string)
    ensures |r| >= 4 && r[|r| - 3] == ':'
    ensures r[..|r| - 3] == NatToString(seconds / 60)
    ensures r[|r| - 2..] == SecondsField(seconds % 60)
  {
    var minutes := NatToString(seconds / 60);
    var rest := SecondsField(seconds % 60);
    ClockFields(minutes, rest);
    minutes + ":" + rest
  }

  /** `remainingSeconds.toString().padStart(2, '0')` for a remainder below 60:
      exactly two digits that read back as the remainder. */
  function SecondsField(sec: nat): (f: string)
    requires sec < 60
    ensures |f| == 2 && ParseNat(f) == Some(sec)
  {
    TwoDigitSeconds(sec);
    PadStart2(NatToString(sec))
  }

  /** Where the fields of `minutes + ":" + rest` sit when `rest` has two characters. */
  lemma ClockFields(minutes: string, rest: string)
    requires |rest| == 2
    ensures var r := minutes + ":" + rest;
      |r| == |minutes| + 3 && r[|r| - 3] == ':' && r[..|r| - 3] == minutes && r[|r| - 2..] == rest
  {
  }

  /** The seconds field is always exactly two digits and reads back as the
      remainder it was built from. */
  lemma TwoDigitSeconds(rem: nat)
    requires rem < 60
    ensures |PadStart2(NatToString(rem))| == 2
    ensures ParseNat(PadStart2(NatToString(rem))) == Some(rem)
  {
    var s := NatToString(rem);
    var r := PadStart2(s);
    NatToStringRoundTrip(rem);
    if rem < 10 {
      assert r == ['0', s[0]];
      assert r[..1] == ['0'];
      assert ParseDigits(r[..1]) == Some(0) by {
        assert r[..1][..0] == [];
      }
    } else {
      assert |s| == 2 by {
        NatToStringRoundTrip(rem / 10);
      }
    }
  }

  /** Reads an `m:ss` string back to a number of seconds. */
  function ParseClock(r: string): Option<nat> {
    if |r| < 4 || r[|r| - 3] != ':' then None
    else
      var minutes, rest := ParseNat(r[..|r| - 3]), ParseNat(r[|r| - 2..]);
      if minutes.Some? && rest.Some? && rest.value < 60 then Some(minutes.value * 60 + rest.value) else None
  }

  /** formatTime loses nothing: minutes * 60 + seconds gives back the input. */
  lemma FormatTimeRoundTrip(seconds: nat)
    ensures ParseClock(FormatTime(seconds)) == Some(seconds)
  {
    SplitMinutes(seconds);
    FormatTimeFields(seconds);
    ClockRoundTrip(seconds / 60, seconds % 60, seconds, FormatTime(seconds));
  }

  lemma SplitMinutes(seconds: nat)
    ensures (seconds / 60) * 60 + seconds % 60 == seconds
  {
  }

  /** Each field of `formatTime` reads back as the number it was built from. */
  lemma FormatTimeFields(seconds: nat)
    ensures var r := FormatTime(seconds);
      ParseNat(r[..|r| - 3]) == Some(seconds / 60) && ParseNat(r[|r| - 2..]) == Some(seconds % 60)
  {
    NatToStringRoundTrip(seconds / 60);
  }

  /** A clock string read back from its two fields. */
  lemma ClockRoundTrip(m: nat, sec: nat, total: nat, r: string)
    requires sec < 60 && total == m * 60 + sec && |r| >= 4 && r[|r| - 3] == ':'
    requires ParseNat(r[..|r| - 3]) == Some(m) && ParseNat(r[|r| - 2..]) == Some(sec)
    ensures ParseClock(r) == Some(total)
  {
  }

  /** `utils.shuffle`: Fisher-Yates from the last index down to 1, swapping
      each slot with a random index at or below it. The random index is
      chosen nondeterministically. */
  method Shuffle<T>(a: array<T>)
    modifies a
    ensures multiset(a[..]) == old(multiset(a[..]))
  {
    var i := a.Length - 1;
    while i > 0
      invariant -1 <= i < a.Length
      invariant multiset(a[..]) == old(multiset(a[..]))
    {
      var j :| 0 <= j <= i;
      a[i], a[j] := a[j], a[i];
      i := i - 1;
    }
  }
}
