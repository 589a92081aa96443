/** The part of Python's built-in `int(str)` that a port number written in an
    environment variable goes through: the C `isspace` characters around it are skipped, an
    optional sign is read, and the rest must be a non-empty run of at most 4300
    decimal digits (the interpreter's default limit on integer string length). */
module PyInt {
  import opened Wrappers

  /** The default of `sys.get_int_max_str_digits()`: longer digit runs raise `ValueError`. */
  const MaxStrDigits := 4300

  /** The characters `int()` skips around a literal: the C `isspace` set, that is
      space and tab through carriage return. `int()` does not use `str.strip()`,
      which also removes U+001C to U+001F; those make `int()` fail. */
  predicate IsSpace(c: char) {
    c == ' ' || '\t' <= c <= '\r'
  }

  predicate IsDigit(c: char) {
    '0' <= c <= '9'
  }

  predicate AllDigits(s: string) {
    forall i :: 0 <= i < |s| ==> IsDigit(s[i])
  }

  function DigitValue(c: char): (d: nat)
    requires IsDigit(c)
    ensures d < 10
  {
    c as int - '0' as int
  }

  function DigitChar(d: nat): (c: char)
    requires d < 10
    ensures IsDigit(c) && DigitValue(c) == d
  {
    ('0' as int + d) as char
  }

  /** The value of a run of decimal digits, most significant first. */
  function DecimalValue(s: string): (r: nat)
    requires AllDigits(s)
    decreases |s|
  {
    if s == [] then 0 else DecimalValue(s[..|s| - 1]) * 10 + DigitValue(s[|s| - 1])
  }

  function TrimLeft(s: string): (t: string)
    ensures t == [] || !IsSpace(t[0])
  {
    if s != [] && IsSpace(s[0]) then TrimLeft(s[1..]) else s
  }

  function TrimRight(s: string): (t: string)
    ensures t == [] || !IsSpace(t[|t| - 1])
  {
    if s != [] && IsSpace(s[|s| - 1]) then TrimRight(s[..|s| - 1]) else s
  }

  /** The text with the whitespace `int()` skips removed from both ends. */
  function Strip(s: string): (r: string) {
    TrimRight(TrimLeft(s))
  }

  predicate HasSign(t: string) {
    t != [] && (t[0] == '+' || t[0] == '-')
  }

  /** An optional sign followed by a non-empty run of at most `MaxStrDigits`
      decimal digits, and nothing else. */
  predicate IsIntLiteral(t: string) {
    var digits := if HasSign(t) then t[1..] else t;
    digits != [] && AllDigits(digits) && |digits| <= MaxStrDigits
  }

  /** `int(s)` for a string: `Some(n)` on success, `None` where Python raises
      `ValueError`. It succeeds exactly on a literal surrounded by characters it skips,
      and only a leading minus sign gives a negative value. */
  function ParseInt(s: string): (r: Option<int>)
    ensures r.Some? <==> IsIntLiteral(Strip(s))
    ensures r.Some? && r.value < 0 ==> Strip(s)[0] == '-'
  {
    ParseLiteral(Strip(s))
  }

  /** The value of an already stripped literal. */
  function ParseLiteral(t: string): (r: Option<int>) {
    if HasSign(t) then
      var digits := t[1..];
      if digits != [] && AllDigits(digits) && |digits| <= MaxStrDigits then
        var magnitude: int := DecimalValue(digits);
        Some(if t[0] == '-' then -magnitude else magnitude)
      else None
    else if t != [] && AllDigits(t) && |t| <= MaxStrDigits then Some(DecimalValue(t))
    else None
  }

  /** The decimal text of a natural number, as Python's `str(n)` writes it. */
  function ShowNat(n: nat): (r: string)
    decreases n
  {
    if n < 10 then [DigitChar(n)] else ShowNat(n / 10) + [DigitChar(n % 10)]
  }

  /** The decimal text of an integer, as Python's `str(n)` writes it. */
  function ShowInt(n: int): (r: string) {
    if n < 0 then "-" + ShowNat(-n) else ShowNat(n)
  }

  lemma {:induction false} ShowNatDigits(n: nat)
    ensures ShowNat(n) != [] && AllDigits(ShowNat(n))
    ensures DecimalValue(ShowNat(n)) == n
    decreases n
  {
    if n >= 10 {
      ShowNatDigits(n / 10);
      var s := ShowNat(n);
      assert s[..|s| - 1] == ShowNat(n / 10);
    }
  }

  /** Reading back the decimal text of an integer gives that integer when it
      has at most `MaxStrDigits` digits, and fails otherwise. */
  lemma ParseShowInt(n: int)
    ensures ParseInt(ShowInt(n))
            == if |ShowNat(if n < 0 then -n else n)| <= MaxStrDigits then Some(n) else None
  {
    var m: nat := if n < 0 then -n else n;
    ShowNatDigits(m);
    var s := ShowInt(n);
    assert Strip(s) == s by {
      assert s != [] && !IsSpace(s[0]) && !IsSpace(s[|s| - 1]);
    }
    ParseLiteralShowInt(n);
  }

  lemma ParseLiteralShowInt(n: int)
    ensures ParseLiteral(ShowInt(n))
            == if |ShowNat(if n < 0 then -n else n)| <= MaxStrDigits then Some(n) else None
  {
    var m: nat := if n < 0 then -n else n;
    ShowNatDigits(m);
    var s := ShowInt(n);
    if n < 0 {
      assert HasSign(s) && s[1..] == ShowNat(m);
    } else {
      assert !HasSign(s) && s == ShowNat(m);
    }
  }

  function Pow10(k: nat): (r: nat) {
    if k == 0 then 1 else 10 * Pow10(k - 1)
  }

  /** A natural number below `10^k` has at most `k` digits. */
  lemma {:induction false} ShowNatLength(n: nat, k: nat)
    requires 1 <= k && n < Pow10(k)
    ensures |ShowNat(n)| <= k
    decreases k
  {
    if n >= 10 {
      assert n / 10 < Pow10(k - 1);
      ShowNatLength(n / 10, k - 1);
    }
  }

  lemma {:induction false} TrimLeftSnoc(s: string, c: char)
    requires IsSpace(c)
    ensures TrimLeft(s + [c]) == (if TrimLeft(s) == [] then [] else TrimLeft(s) + [c])
    decreases |s|
  {
    if s == [] {
      assert [c][1..] == [];
    } else if IsSpace(s[0]) {
      assert (s + [c])[1..] == s[1..] + [c];
      TrimLeftSnoc(s[1..], c);
    } else {
      assert (s + [c])[0] == s[0];
    }
  }

  /** A separator character that `str.strip()` would remove makes `int()` fail. */
  lemma ParseIntRejectsSeparator()
    ensures ParseInt("\U{001C}9000") == None
  {
    assert !IsSpace('\U{001C}');
    assert Strip("\U{001C}9000") == "\U{001C}9000";
  }

  /** One character that `int()` skips, on either side, does not change what `int()` reads. */
  lemma ParseIntPadded(s: string, c: char)
    requires IsSpace(c)
    ensures ParseInt([c] + s + [c]) == ParseInt(s)
  {
    assert ([c] + s + [c])[1..] == s + [c];
    TrimLeftSnoc(s, c);
    var t := TrimLeft(s);
    if t != [] {
      assert (t + [c])[..|t + [c]| - 1] == t;
    }
    assert Strip([c] + s + [c]) == Strip(s);
  }
}
