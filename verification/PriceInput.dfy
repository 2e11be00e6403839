/**
  The price field: keeping only digits and one separator while the user types, and rounding the
  digit string to a fixed number of decimals, half down, without ever converting it to a number.
*/
module PriceInput {

  predicate IsDigit(c: char) {
    '0' <= c <= '9'
  }

  predicate AllDigits(s: string) {
    forall i :: 0 <= i < |s| ==> IsDigit(s[i])
  }

  // ----- Sanitizing -----

  predicate IsSeparator(c: char) {
    c == '.' || c == ','
  }

  /** Digits and the first separator, given whether one was seen already. */
  function Keep(raw: string, seen: bool): string {
    if raw == "" then ""
    else if IsDigit(raw[0]) then [raw[0]] + Keep(raw[1..], seen)
    else if IsSeparator(raw[0]) && !seen then [raw[0]] + Keep(raw[1..], true)
    else Keep(raw[1..], seen)
  }

  function Sanitize(raw: string): string {
    Keep(raw, false)
  }

  lemma {:induction false} KeepStep(raw: string, seen: bool, k: nat)
    requires k < |raw|
    ensures Keep(raw[..k + 1], seen) ==
            Keep(raw[..k], seen) + (if IsDigit(raw[k]) || (IsSeparator(raw[k]) && !seen && NoSeparator(raw[..k])) then [raw[k]] else "")
    decreases k
  {
    if k == 0 {
      assert raw[..1][1..] == "";
      assert raw[..0] == "";
      assert Keep("", seen) == "" && Keep("", true) == "";
    } else {
      assert raw[..k + 1][1..] == raw[1..][..k] && raw[..k][1..] == raw[1..][..k - 1];
      KeepStep(raw[1..], seen, k - 1);
      KeepStep(raw[1..], true, k - 1);
      NoSeparatorFrom(raw, k);
    }
  }

  lemma NoSeparatorFrom(raw: string, k: nat)
    requires 0 < k <= |raw|
    ensures NoSeparator(raw[..k]) <==> !IsSeparator(raw[0]) && NoSeparator(raw[1..][..k - 1])
  {
    var tail := raw[1..][..k - 1];
    assert raw[..k] == [raw[0]] + tail;
    if !IsSeparator(raw[0]) && NoSeparator(tail) {
      forall i | 0 <= i < k ensures !IsSeparator(raw[i]) {
        if i > 0 {
          assert tail[i - 1] == raw[i];
        }
      }
    }
    if NoSeparator(raw[..k]) {
      assert raw[..k][0] == raw[0];
      forall i | 0 <= i < |tail| ensures !IsSeparator(tail[i]) {
        assert raw[..k][i + 1] == tail[i];
      }
    }
  }

  predicate NoSeparator(s: string) {
    forall i :: 0 <= i < |s| ==> !IsSeparator(s[i])
  }

  /** The loop that builds the sanitized text. */
  method SanitizeForEditing(raw: string) returns (out: string)
    ensures out == Sanitize(raw)
  {
    out := "";
    var seenSep := false;
    for i := 0 to |raw|
      invariant out == Keep(raw[..i], false)
      invariant seenSep == !NoSeparator(raw[..i])
    {
      KeepStep(raw, false, i);
      assert raw[..i + 1] == raw[..i] + [raw[i]];
      var ch := raw[i];
      if IsDigit(ch) {
        out := out + [ch];
      } else if IsSeparator(ch) && !seenSep {
        out := out + [ch];
        seenSep := true;
      }
    }
    assert raw[..|raw|] == raw;
  }

  /** Digits with at most one separator. */
  predicate Clean(s: string, seen: bool) {
    s == "" ||
    (IsDigit(s[0]) && Clean(s[1..], seen)) ||
    (IsSeparator(s[0]) && !seen && Clean(s[1..], true))
  }

  lemma {:induction false} KeepIsClean(raw: string, seen: bool)
    ensures Clean(Keep(raw, seen), seen)
  {
    if raw != "" {
      KeepIsClean(raw[1..], seen);
      KeepIsClean(raw[1..], true);
      var k := Keep(raw, seen);
      assert IsDigit(raw[0]) ==> k[1..] == Keep(raw[1..], seen);
      assert IsSeparator(raw[0]) && !seen ==> k[1..] == Keep(raw[1..], true);
    }
  }

  lemma {:induction false} KeepKeepsClean(s: string, seen: bool)
    requires Clean(s, seen)
    ensures Keep(s, seen) == s
  {
    if s != "" {
      assert [s[0]] + s[1..] == s;
      if IsDigit(s[0]) {
        KeepKeepsClean(s[1..], seen);
      } else {
        KeepKeepsClean(s[1..], true);
      }
    }
  }

  /** Sanitizing leaves digits and at most one separator, and sanitizing again changes nothing. */
  lemma SanitizeIsIdempotent(raw: string)
    ensures Clean(Sanitize(raw), false) && Sanitize(Sanitize(raw)) == Sanitize(raw)
  {
    KeepIsClean(raw, false);
    KeepKeepsClean(Sanitize(raw), false);
  }

  /** The digits of a text, in order. */
  function DigitsOf(s: string): string {
    if s == "" then "" else (if IsDigit(s[0]) then [s[0]] else "") + DigitsOf(s[1..])
  }

  lemma {:induction false} KeepsDigits(raw: string, seen: bool)
    requires seen || NoSeparator(raw)
    ensures Keep(raw, seen) == DigitsOf(raw)
  {
    if raw != "" {
      assert IsSeparator(raw[0]) ==> seen;
      KeepsDigits(raw[1..], seen);
    }
  }

  lemma {:induction false} KeepsFirstSeparator(a: string, c: char, b: string)
    requires NoSeparator(a) && IsSeparator(c)
    ensures Keep(a + [c] + b, false) == DigitsOf(a) + [c] + DigitsOf(b)
  {
    var raw := a + [c] + b;
    if a == "" {
      assert raw[1..] == b;
      KeepsDigits(b, true);
    } else {
      FirstOff(a, c, b);
      KeepsFirstSeparator(a[1..], c, b);
      var front := if IsDigit(a[0]) then [a[0]] else "";
      assert Keep(raw, false) == front + (DigitsOf(a[1..]) + [c] + DigitsOf(b));
      assert DigitsOf(a) == front + DigitsOf(a[1..]);
    }
  }

  lemma FirstOff(a: string, c: char, b: string)
    requires a != ""
    ensures (a + [c] + b)[0] == a[0] && (a + [c] + b)[1..] == a[1..] + [c] + b
  {
  }

  /** What is left of a text: its digits, with the first dot or comma still where the user typed
      it, and no other character. */
  lemma SanitizeExactly(a: string, c: char, b: string)
    requires (forall x :: x in a ==> x != '.' && x != ',') && c in ".,"
    ensures Sanitize(a) == DigitsOf(a)
    ensures Sanitize(a + [c] + b) == DigitsOf(a) + [c] + DigitsOf(b)
    ensures DigitsOf("0123456789") == "0123456789"
    ensures forall x :: x in DigitsOf(a) <==> x in a && x in "0123456789"
  {
    forall i | 0 <= i < |a| ensures !IsSeparator(a[i]) {
      assert a[i] in a;
    }
    KeepsDigits(a, false);
    KeepsFirstSeparator(a, c, b);
    DigitsOfDigits("0123456789");
    DigitsOfHolds(a);
  }

  lemma {:induction false} DigitsOfDigits(s: string)
    requires AllDigits(s)
    ensures DigitsOf(s) == s
  {
    if s != "" {
      DigitsOfDigits(s[1..]);
      assert [s[0]] + s[1..] == s;
    }
  }

  lemma {:induction false} DigitsOfHolds(s: string)
    ensures forall x :: x in DigitsOf(s) <==> x in s && x in "0123456789"
  {
    if s != "" {
      DigitsOfHolds(s[1..]);
      DigitInTable(s[0]);
      assert [s[0]] + s[1..] == s;
      forall x ensures x in DigitsOf(s) <==> x in s && x in "0123456789" {
        assert x in s <==> x == s[0] || x in s[1..];
      }
    }
  }

  lemma DigitInTable(c: char)
    ensures IsDigit(c) <==> c in "0123456789"
  {
    if IsDigit(c) {
      assert "0123456789"[c as int - '0' as int] == c;
    }
  }

  // ----- Digit strings as numbers -----

  function Digit(c: char): int {
    c as int - '0' as int
  }

  function Value(s: string): int {
    if s == "" then 0 else 10 * Value(s[..|s| - 1]) + Digit(s[|s| - 1])
  }

  function Pow10(k: nat): int {
    if k == 0 then 1 else 10 * Pow10(k - 1)
  }

  lemma {:induction false} Pow10Positive(k: nat)
    ensures Pow10(k) >= 1
  {
    if k > 0 {
      Pow10Positive(k - 1);
    }
  }

  lemma {:induction false} ValueBounds(s: string)
    requires AllDigits(s)
    ensures 0 <= Value(s) < Pow10(|s|)
  {
    if s != "" {
      ValueBounds(s[..|s| - 1]);
    }
  }

  lemma {:induction false} ValueConcat(a: string, b: string)
    ensures Value(a + b) == Value(a) * Pow10(|b|) + Value(b)
  {
    if b == "" {
      assert a + b == a;
    } else {
      var (front, last) := (b[..|b| - 1], b[|b| - 1]);
      ValueConcat(a, front);
      assert (a + b)[..|a + b| - 1] == a + front;
      ShiftDigit(Value(a), Pow10(|front|), Value(front), Digit(last));
    }
  }

  lemma ShiftDigit(x: int, q: int, v: int, d: int)
    ensures 10 * (x * q + v) + d == x * (10 * q) + (10 * v + d)
  {
    assert 10 * (x * q) == x * (10 * q);
  }

  // ----- Adding one -----

  /** The digits plus one, and whether a carry is left over. */
  function Bump(s: string): (string, bool) {
    if s == "" then ("", true)
    else
      var (front, last) := (s[..|s| - 1], s[|s| - 1]);
      if last == '9' then
        var (f, carry) := Bump(front);
        (f + "0", carry)
      else if IsDigit(last) then (front + [(last as int + 1) as char], false)
      else (s, false)
  }

  lemma ValueSnoc(s: string, c: char)
    ensures Value(s + [c]) == 10 * Value(s) + Digit(c)
  {
    assert (s + [c])[..|s|] == s;
  }

  /** The carry ripples: value and length are right, carry or not. */
  lemma {:induction false} BumpAddsOne(s: string)
    requires AllDigits(s)
    ensures |Bump(s).0| == |s| && AllDigits(Bump(s).0)
    ensures Value(Bump(s).0) + (if Bump(s).1 then Pow10(|s|) else 0) == Value(s) + 1
  {
    if s != "" {
      var (front, last) := (s[..|s| - 1], s[|s| - 1]);
      BumpAddsOne(front);
      if last == '9' {
        assert Bump(s).0 == Bump(front).0 + ['0'];
        ValueSnoc(Bump(front).0, '0');
      } else {
        var up := (last as int + 1) as char;
        assert Bump(s).0 == front + [up];
        ValueSnoc(front, up);
      }
    }
  }

  lemma {:induction false} BumpStops(p: string, d: char, nines: string)
    requires IsDigit(d) && d != '9' && forall i :: 0 <= i < |nines| ==> nines[i] == '9'
    ensures Bump(p + [d] + nines) == (p + [(d as int + 1) as char] + Zeros(|nines|), false)
  {
    var s := p + [d] + nines;
    var up := (d as int + 1) as char;
    if nines == "" {
      assert s == p + [d];
      assert s[..|s| - 1] == p;
      assert p + [up] + "" == p + [up];
    } else {
      var front := nines[..|nines| - 1];
      BumpStops(p, d, front);
      assert s[..|s| - 1] == p + [d] + front && s[|s| - 1] == '9';
      assert p + [up] + Zeros(|front|) + "0" == p + [up] + (Zeros(|front|) + "0");
    }
  }

  lemma {:induction false} BumpOfNines(nines: string)
    requires forall i :: 0 <= i < |nines| ==> nines[i] == '9'
    ensures Bump(nines) == (Zeros(|nines|), true)
  {
    if nines != "" {
      BumpOfNines(nines[..|nines| - 1]);
    }
  }

  function Zeros(n: nat): string {
    if n == 0 then "" else Zeros(n - 1) + "0"
  }

  lemma {:induction false} ZerosAreZero(n: nat)
    ensures |Zeros(n)| == n && AllDigits(Zeros(n)) && Value(Zeros(n)) == 0
    ensures forall i :: 0 <= i < n ==> Zeros(n)[i] == '0'
  {
    if n > 0 {
      ZerosAreZero(n - 1);
      assert Zeros(n)[..n - 1] == Zeros(n - 1);
    }
  }

  /** The carry loop over the array of digits, from the right. */
  method AddCarry(a: array<char>) returns (carry: bool)
    requires AllDigits(a[..])
    modifies a
    ensures (a[..], carry) == Bump(old(a[..]))
  {
    ghost var was := a[..];
    carry := true;
    var i := a.Length - 1;
    while i >= 0 && carry
      invariant -1 <= i < a.Length
      invariant forall k :: i < k < a.Length && (carry || k > i + 1) ==> was[k] == '9' && a[k] == '0'
      invariant forall k :: 0 <= k <= i ==> a[k] == was[k]
      invariant !carry ==> i + 1 < a.Length && was[i + 1] != '9' && a[i + 1] == (was[i + 1] as int + 1) as char
    {
      var d := Digit(a[i]) + 1;
      if d >= 10 {
        a[i] := '0';
        carry := true;
      } else {
        a[i] := (48 + d) as char;
        carry := false;
      }
      i := i - 1;
    }
    if carry {
      AllRippled(was, a[..]);
    } else {
      RippledTo(was, a[..], i + 1);
    }
  }

  lemma AllRippled(was: string, now: string)
    requires |now| == |was| && forall k :: 0 <= k < |was| ==> was[k] == '9' && now[k] == '0'
    ensures Bump(was) == (now, true)
  {
    BumpOfNines(was);
    ZerosAreZero(|was|);
    assert now == Zeros(|was|);
  }

  lemma RippledTo(was: string, now: string, k: nat)
    requires k < |was| == |now| && IsDigit(was[k]) && was[k] != '9'
    requires now[k] == (was[k] as int + 1) as char
    requires forall j :: 0 <= j < k ==> now[j] == was[j]
    requires forall j :: k < j < |was| ==> was[j] == '9' && now[j] == '0'
    ensures Bump(was) == (now, false)
  {
    var nines := was[k + 1..];
    BumpStops(was[..k], was[k], nines);
    assert was == was[..k] + [was[k]] + nines;
    ZerosAreZero(|nines|);
    assert now == was[..k] + [now[k]] + Zeros(|nines|);
  }

  method ToArray(s: string) returns (a: array<char>)
    ensures fresh(a) && a[..] == s
  {
    a := new char[|s|](i requires 0 <= i < |s| => s[i]);
  }

  function IncInt(s: string): string {
    if s == "" then "1" else var (t, carry) := Bump(s); if carry then "1" + t else t
  }

  lemma OneInFront(one: string, t: string)
    requires |one| == 1 && one[0] == '1' && AllDigits(t)
    ensures AllDigits(one + t) && Value(one + t) == Pow10(|t|) + Value(t)
  {
    assert Value(one[..0]) == 0;
    assert Value(one) == 1;
    ValueConcat(one, t);
    UnitTimes(Value(one), Pow10(|t|));
  }

  lemma UnitTimes(x: int, q: int)
    requires x == 1
    ensures x * q == q
  {
  }

  lemma IncIntAddsOne(s: string)
    requires AllDigits(s)
    ensures AllDigits(IncInt(s)) && IncInt(s) != "" && Value(IncInt(s)) == Value(s) + 1
  {
    if s == "" {
      OneInFront("1", "");
      assert "1" + "" == "1";
    } else {
      BumpAddsOne(s);
      if Bump(s).1 {
        OneInFront("1", Bump(s).0);
      }
    }
  }

  method IncIntString(s: string) returns (r: string)
    requires AllDigits(s)
    ensures r == IncInt(s)
  {
    if s == "" {
      return "1";
    }
    var a := ToArray(s);
    var carry := AddCarry(a);
    r := a[..];
    if carry {
      r := "1" + r;
    }
  }

  datatype Parts = Parts(intPart: string, fracPart: string)

  function AddUlp(p: Parts): Parts {
    var (f, carry) := Bump(p.fracPart);
    Parts(if carry then IncInt(p.intPart) else p.intPart, f)
  }

  method AddOne(p: Parts) returns (r: Parts)
    requires AllDigits(p.intPart) && AllDigits(p.fracPart)
    ensures r == AddUlp(p)
  {
    var a := ToArray(p.fracPart);
    var carry := AddCarry(a);
    var newInt := p.intPart;
    if carry {
      newInt := IncIntString(p.intPart);
    }
    return Parts(newInt, a[..]);
  }

  /** The value of a number with d decimals, in units of 10^-d. */
  function Scaled(p: Parts): int {
    Value(p.intPart + p.fracPart)
  }

  lemma AddUlpAddsOne(p: Parts)
    requires AllDigits(p.intPart) && AllDigits(p.fracPart)
    ensures var r := AddUlp(p);
            && |r.fracPart| == |p.fracPart| && AllDigits(r.intPart) && AllDigits(r.fracPart)
            && (p.intPart != "" ==> r.intPart != "")
            && Scaled(r) == Scaled(p) + 1
  {
    var r := AddUlp(p);
    BumpAddsOne(p.fracPart);
    IncIntAddsOne(p.intPart);
    ValueConcat(p.intPart, p.fracPart);
    ValueConcat(r.intPart, r.fracPart);
    CarryIntoInt(Value(p.intPart), Value(r.intPart), Pow10(|p.fracPart|), Bump(p.fracPart).1);
  }

  lemma CarryIntoInt(x: int, x': int, q: int, carry: bool)
    requires x' == x + (if carry then 1 else 0)
    ensures x' * q == x * q + (if carry then q else 0)
  {
  }

  // ----- Rounding -----

  /** Everything before the first dot, and everything between it and the next. */
  function SplitDot(s: string): Parts {
    if s == "" then Parts("", "")
    else if s[0] == '.' then Parts("", UpToDot(s[1..]))
    else
      var rest := SplitDot(s[1..]);
      Parts([s[0]] + rest.intPart, rest.fracPart)
  }

  function UpToDot(s: string): string {
    if s == "" || s[0] == '.' then "" else [s[0]] + UpToDot(s[1..])
  }

  /** Pad with zeros and cut to dp decimals. */
  function Fixed(p: Parts, dp: nat): Parts {
    var padded := p.fracPart + (if |p.fracPart| < dp then Zeros(dp - |p.fracPart|) else "");
    ZerosAreZero(if |p.fracPart| < dp then dp - |p.fracPart| else 0);
    Parts(p.intPart, padded[..dp])
  }

  function Show(p: Parts): string {
    p.intPart + "." + p.fracPart
  }

  predicate SomeNonZero(s: string) {
    exists i :: 0 <= i < |s| && s[i] != '0'
  }

  /** Whether the dropped digits are more than half a unit: the first is above 5, or is 5 and
      some later one is not zero. */
  predicate AboveHalf(rest: string)
    requires rest != ""
  {
    rest[0] > '5' || (rest[0] == '5' && SomeNonZero(rest[1..]))
  }

  predicate RoundsUp(p: Parts, dp: nat) {
    |p.fracPart| > dp && AboveHalf(p.fracPart[dp..])
  }

  /** The rounded integer part and decimals. */
  function RoundParts(p: Parts, dp: nat): Parts {
    if |p.fracPart| <= dp then Fixed(p, dp)
    else
      var keep := Parts(p.intPart, p.fracPart[..dp]);
      if RoundsUp(p, dp) then AddUlp(keep) else keep
  }

  function Parsed(s: string): Parts {
    var p := SplitDot(s);
    Parts(if p.intPart == "" then "0" else p.intPart, p.fracPart)
  }

  /** The rounded text.  With no decimals asked for, only a rounding up drops the dot. */
  function Round(s: string, dp: nat): string {
    if s == "" then ""
    else
      var r := RoundParts(Parsed(s), dp);
      if dp == 0 && RoundsUp(Parsed(s), dp) then r.intPart else Show(r)
  }

  /** The rounding as the field runs it. */
  method RoundHalfDown(s: string, dp: nat) returns (r: string)
    requires AllDigits(Parsed(s).intPart) && AllDigits(Parsed(s).fracPart)
    ensures r == Round(s, dp)
  {
    if s == "" {
      return "";
    }
    var p := Parsed(s);
    if |p.fracPart| <= dp {
      return Show(Fixed(p, dp));
    }
    var keep := p.fracPart[..dp];
    var rest := p.fracPart[dp..];
    var onlyZeros := !SomeNonZero(rest[1..]);
    var isTie := rest[0] == '5' && onlyZeros;
    if isTie {
      return Show(Parts(p.intPart, keep));
    }
    var shouldUp := rest[0] > '5' || (rest[0] == '5' && SomeNonZero(rest[1..]));
    if !shouldUp {
      return Show(Parts(p.intPart, keep));
    }
    var up := AddOne(Parts(p.intPart, keep));
    BumpAddsOne(keep);
    return if dp > 0 then up.intPart + "." + up.fracPart else up.intPart;
  }

  lemma {:induction false} ValueOfZeros(s: string)
    requires AllDigits(s)
    ensures Value(s) == 0 <==> !SomeNonZero(s)
  {
    if s != "" {
      var front := s[..|s| - 1];
      ValueOfZeros(front);
      ValueBounds(front);
      if SomeNonZero(s) {
        var i :| 0 <= i < |s| && s[i] != '0';
        if i < |front| {
          assert front[i] == s[i];
        }
      }
      if SomeNonZero(front) {
        var i :| 0 <= i < |front| && front[i] != '0';
        assert s[i] != '0';
      }
    }
  }

  /** The digit test decides exactly whether the dropped part is more than half a unit. */
  lemma AboveHalfIsAboveHalf(rest: string)
    requires rest != "" && AllDigits(rest)
    ensures AboveHalf(rest) <==> 2 * Value(rest) > Pow10(|rest|)
  {
    var tail := rest[1..];
    assert [rest[0]] + tail == rest;
    ValueConcat([rest[0]], tail);
    assert [rest[0]][..0] == "";
    ValueBounds(tail);
    ValueOfZeros(tail);
    Pow10Positive(|tail|);
    HalfByFirstDigit(Digit(rest[0]), Pow10(|tail|), Value(tail));
  }

  lemma HalfByFirstDigit(d: int, q: int, v: int)
    requires 0 <= d <= 9 && 0 <= v < q
    ensures 2 * (d * q + v) > 10 * q <==> d > 5 || (d == 5 && v > 0)
  {
    if d <= 4 {
      assert d * q <= 4 * q;
    } else if d >= 6 {
      assert d * q >= 6 * q;
    }
  }

  /** n is the multiple of 10^k nearest to x, in units of 10^k, ties going down. */
  ghost predicate NearestDown(n: int, x: int, k: nat) {
    2 * (x - n * Pow10(k)) <= Pow10(k) && 2 * (n * Pow10(k) - x) < Pow10(k)
  }

  /**
    Rounding is round-half-down: for every input and dp the result has exactly dp decimals and a
    non-empty integer part; with at most dp decimals given the value is unchanged, and
    otherwise it is the nearest multiple of 10^-dp, a tie going down.
  */
  lemma RoundIsHalfDown(p: Parts, dp: nat)
    requires AllDigits(p.intPart) && AllDigits(p.fracPart) && p.intPart != ""
    ensures var r := RoundParts(p, dp);
            && |r.fracPart| == dp && AllDigits(r.fracPart) && AllDigits(r.intPart) && r.intPart != ""
            && (|p.fracPart| <= dp ==> Scaled(r) == Scaled(p) * Pow10(dp - |p.fracPart|))
            && (|p.fracPart| > dp ==> NearestDown(Scaled(r), Scaled(p), |p.fracPart| - dp))
  {
    if |p.fracPart| <= dp {
      PaddingKeepsValue(p, dp);
    } else {
      CuttingRounds(p, dp);
    }
  }

  lemma FixedPads(p: Parts, dp: nat)
    requires |p.fracPart| <= dp
    ensures Fixed(p, dp) == Parts(p.intPart, p.fracPart + Zeros(dp - |p.fracPart|))
  {
    var k := dp - |p.fracPart|;
    ZerosAreZero(k);
    if k == 0 {
      assert p.fracPart + "" == p.fracPart;
    }
    var padded := p.fracPart + Zeros(k);
    assert padded[..dp] == padded;
  }

  lemma PaddingKeepsValue(p: Parts, dp: nat)
    requires AllDigits(p.intPart) && AllDigits(p.fracPart) && |p.fracPart| <= dp
    ensures var r := RoundParts(p, dp);
            && |r.fracPart| == dp && AllDigits(r.fracPart) && r.intPart == p.intPart
            && Scaled(r) == Scaled(p) * Pow10(dp - |p.fracPart|)
  {
    var k := dp - |p.fracPart|;
    ZerosAreZero(k);
    FixedPads(p, dp);
    ValueConcat(p.intPart + p.fracPart, Zeros(k));
    assert p.intPart + (p.fracPart + Zeros(k)) == (p.intPart + p.fracPart) + Zeros(k);
  }

  lemma NearestFromRemainder(n: int, x: int, v: int, k: nat, up: bool)
    requires x == n * Pow10(k) + v && 0 <= v < Pow10(k)
    requires up <==> 2 * v > Pow10(k)
    ensures NearestDown(if up then n + 1 else n, x, k)
  {
    var q := Pow10(k);
    assert (n + 1) * q == n * q + q;
  }

  /** The digits cut off, and what is left, make up the number. */
  lemma CutValue(p: Parts, dp: nat)
    requires |p.fracPart| > dp
    ensures Scaled(p) == Scaled(Parts(p.intPart, p.fracPart[..dp])) * Pow10(|p.fracPart| - dp) + Value(p.fracPart[dp..])
  {
    var (keep, rest) := (Parts(p.intPart, p.fracPart[..dp]), p.fracPart[dp..]);
    ValueConcat(keep.intPart + keep.fracPart, rest);
    assert p.intPart + p.fracPart == (keep.intPart + keep.fracPart) + rest;
  }

  lemma CuttingRounds(p: Parts, dp: nat)
    requires AllDigits(p.intPart) && AllDigits(p.fracPart) && p.intPart != "" && |p.fracPart| > dp
    ensures var r := RoundParts(p, dp);
            && |r.fracPart| == dp && AllDigits(r.fracPart) && AllDigits(r.intPart) && r.intPart != ""
            && NearestDown(Scaled(r), Scaled(p), |p.fracPart| - dp)
  {
    var (keep, rest) := (Parts(p.intPart, p.fracPart[..dp]), p.fracPart[dp..]);
    CutValue(p, dp);
    ValueBounds(rest);
    AboveHalfIsAboveHalf(rest);
    AddUlpAddsOne(keep);
    NearestFromRemainder(Scaled(keep), Scaled(p), Value(rest), |rest|, RoundsUp(p, dp));
  }

  // ----- Idempotence -----

  lemma {:induction false} SplitDotOfShown(i: string, f: string)
    requires AllDigits(i) && AllDigits(f)
    ensures SplitDot(i + "." + f) == Parts(i, f)
  {
    var s := i + "." + f;
    if i == "" {
      assert s[1..] == f;
      UpToDotOfDigits(f);
    } else {
      assert s[1..] == i[1..] + "." + f;
      SplitDotOfShown(i[1..], f);
      assert [i[0]] + i[1..] == i;
    }
  }

  lemma {:induction false} UpToDotOfDigits(f: string)
    requires AllDigits(f)
    ensures UpToDot(f) == f
  {
    if f != "" {
      UpToDotOfDigits(f[1..]);
      assert [f[0]] + f[1..] == f;
    }
  }

  lemma {:induction false} CleanSplits(s: string, seen: bool)
    requires Clean(s, seen) && ',' !in s
    ensures seen ==> AllDigits(s)
    ensures AllDigits(SplitDot(s).intPart) && AllDigits(SplitDot(s).fracPart)
  {
    if s != "" {
      assert ',' !in s[1..];
      if IsDigit(s[0]) {
        CleanSplits(s[1..], seen);
      } else {
        CleanSplits(s[1..], true);
        UpToDotOfDigits(s[1..]);
      }
    }
  }

  lemma {:induction false} SplitDotOfDigits(i: string)
    requires AllDigits(i)
    ensures SplitDot(i) == Parts(i, "")
  {
    if i != "" {
      SplitDotOfDigits(i[1..]);
      assert [i[0]] + i[1..] == i;
    }
  }

  // ----- The rounded text -----

  /** The text t is a number with exactly dp decimals and at least one digit before them. */
  ghost predicate ShowsDecimals(t: string, dp: nat) {
    var p := SplitDot(t);
    && AllDigits(p.intPart) && AllDigits(p.fracPart) && p.intPart != "" && |p.fracPart| == dp
    && (t == p.intPart + "." + p.fracPart || (dp == 0 && t == p.intPart))
  }

  /** The text t, read with dp decimals, is the number i.f if that has no more decimals, and
      otherwise the nearest one, a tie going down. */
  ghost predicate ShowsRounded(t: string, i: string, f: string, dp: nat) {
    ShowsDecimals(t, dp) && RoundedTo(Scaled(SplitDot(t)), Value(i + f), |f|, dp)
  }

  /** In units of 10^-dp, n is x units of 10^-k, rounded half down if k is more than dp. */
  ghost predicate RoundedTo(n: int, x: int, k: nat, dp: nat) {
    if k <= dp then n == x * Pow10(dp - k) else NearestDown(n, x, k - dp)
  }

  /** The rounded text of every number the field can hold, ".5" and "5." among them: digits, a dot
      and digits, either of them possibly missing; or digits alone. */
  lemma RoundedText(i: string, f: string, dp: nat)
    requires AllDigits(i) && AllDigits(f)
    ensures ShowsRounded(Round(i + "." + f, dp), i, f, dp)
    ensures i != "" ==> ShowsRounded(Round(i, dp), i, "", dp)
    ensures Round("", dp) == ""
  {
    SplitDotOfShown(i, f);
    RoundedPartsShown(i + "." + f, i, f, dp);
    if i != "" {
      SplitDotOfDigits(i);
      RoundedPartsShown(i, i, "", dp);
    }
  }

  lemma RoundedPartsShown(s: string, i: string, f: string, dp: nat)
    requires s != "" && AllDigits(i) && AllDigits(f) && SplitDot(s) == Parts(i, f)
    ensures ShowsRounded(Round(s, dp), i, f, dp)
  {
    var p := Parts(if i == "" then "0" else i, f);
    if i == "" {
      ZeroInFront(f);
    }
    assert Parsed(s) == p && Scaled(p) == Value(i + f);
    PartsAreRounded(p, dp);
    ShownParts(RoundParts(p, dp), dp);
  }

  lemma PartsAreRounded(p: Parts, dp: nat)
    requires AllDigits(p.intPart) && AllDigits(p.fracPart) && p.intPart != ""
    ensures var r := RoundParts(p, dp);
            && |r.fracPart| == dp && AllDigits(r.fracPart) && AllDigits(r.intPart) && r.intPart != ""
            && RoundedTo(Scaled(r), Scaled(p), |p.fracPart|, dp)
  {
    RoundIsHalfDown(p, dp);
  }

  /** The digits shown are the parts, with or without a dot that no decimals follow. */
  lemma ShownParts(r: Parts, dp: nat)
    requires AllDigits(r.intPart) && AllDigits(r.fracPart) && r.intPart != "" && |r.fracPart| == dp
    ensures ShowsDecimals(Show(r), dp) && SplitDot(Show(r)) == r
    ensures dp == 0 ==> ShowsDecimals(r.intPart, dp) && SplitDot(r.intPart) == r
  {
    SplitDotOfShown(r.intPart, r.fracPart);
    if dp == 0 {
      SplitDotOfDigits(r.intPart);
      assert r.fracPart == "";
    }
  }

  lemma ZeroInFront(f: string)
    ensures Value("0" + f) == Value("" + f)
  {
    ValueConcat("0", f);
    var zero := "0";
    assert zero[..0] == "" && Value(zero) == 0;
    assert "" + f == f;
  }

  /** Digits have their decimal values, and a field that holds ".56" shows 0.6. */
  lemma RoundedTextExample()
    ensures Value("0123456789") == 123456789
    ensures Round(".56", 1) == "0.6" && Round(".55", 1) == "0.5" && Round(".5", 2) == "0.50"
  {
    DigitValues();
    RoundedUpExample();
    TieExample();
    PaddedExample();
  }

  lemma TieExample()
    ensures Round(".55", 1) == "0.5"
  {
    NoIntegerPart("55");
    var (five, fiftyFive) := ("5", "55");
    assert fiftyFive[..1] == five && fiftyFive[1..] == five;
  }

  lemma PaddedExample()
    ensures Round(".5", 2) == "0.50"
  {
    NoIntegerPart("5");
    FixedPads(Parts("0", "5"), 2);
    assert Zeros(1) == "" + "0";
  }

  lemma NoIntegerPart(f: string)
    requires AllDigits(f)
    ensures Parsed("." + f) == Parts("0", f)
  {
    SplitDotOfShown("", f);
    assert "" + "." + f == "." + f;
  }

  lemma RoundedUpExample()
    ensures Round(".56", 1) == "0.6"
  {
    NoIntegerPart("56");
    var (five, fiftySix) := ("5", "56");
    assert fiftySix[..1] == five && fiftySix[1..] == "6";
    assert five[..0] == "" && Bump(five) == ("" + "6", false);
  }

  lemma DigitValues()
    ensures Value("0123456789") == 123456789
  {
    var s := "0123456789";
    assert s[..10] == s && Value(s[..0]) == 0;
    assert s[..1][..0] == s[..0] && Value(s[..1]) == 0;
    assert s[..2][..1] == s[..1] && Value(s[..2]) == 1;
    assert s[..3][..2] == s[..2] && Value(s[..3]) == 12;
    assert s[..4][..3] == s[..3] && Value(s[..4]) == 123;
    assert s[..5][..4] == s[..4] && Value(s[..5]) == 1234;
    assert s[..6][..5] == s[..5] && Value(s[..6]) == 12345;
    assert s[..7][..6] == s[..6] && Value(s[..7]) == 123456;
    assert s[..8][..7] == s[..7] && Value(s[..8]) == 1234567;
    assert s[..9][..8] == s[..8] && Value(s[..9]) == 12345678;
  }

  /** Parts that are already rounded are left as they are. */
  lemma RoundedStays(r: Parts, dp: nat)
    requires AllDigits(r.intPart) && AllDigits(r.fracPart) && r.intPart != "" && |r.fracPart| == dp
    ensures Round(Show(r), dp) == Show(r)
  {
    SplitDotOfShown(r.intPart, r.fracPart);
    FixedPads(r, dp);
    assert r.fracPart + "" == r.fracPart;
  }

  /** Rounding a sanitized input twice is rounding it once, except when no decimals are asked for
      and the first rounding goes up: its result has no dot and the second one adds it. */
  lemma RoundIsIdempotentExactlyWhen(s: string, dp: nat)
    requires Clean(s, false) && ',' !in s && s != ""
    ensures Round(Round(s, dp), dp) == Round(s, dp) <==> dp > 0 || !RoundsUp(Parsed(s), dp)
  {
    CleanSplits(s, false);
    var p := Parsed(s);
    RoundIsHalfDown(p, dp);
    var r := RoundParts(p, dp);
    if dp > 0 || !RoundsUp(p, dp) {
      RoundedStays(r, dp);
    } else {
      SplitDotOfDigits(r.intPart);
      FixedPads(Parts(r.intPart, ""), 0);
      assert Round(r.intPart, 0) == r.intPart + "." + "";
      assert |Round(r.intPart, 0)| == |r.intPart| + 1;
    }
  }

  /** Rounding 0.9 to no decimals gives 1, and rounding that again gives 1 and a dot. */
  lemma RoundingTwiceCanDiffer()
    ensures Round("0.9", 0) == "1" && Round("1", 0) == "1."
  {
    assert SplitDot("0.9") == Parts("0", "9");
    var zero := "0";
    assert zero[..0] == "" && zero[0] == '0';
    assert Bump(zero) == ("" + "1", false);
    assert IncInt(zero) == "1";
    assert RoundsUp(Parts("0", "9"), 0);
  }
}
