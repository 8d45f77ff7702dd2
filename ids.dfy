/**
 * Identifier extraction from hyperlink targets (`get_id` in src/lib.rs):
 * find the first `id=` and parse everything after it as a `usize`,
 * exactly as Rust's `str::parse::<usize>` does.
 */
module Ids {
  import opened Wrappers
  import opened Strings

  /** `usize::MAX` on a 64-bit target. */
  const UsizeMax: nat := 0xFFFF_FFFF_FFFF_FFFF

  type Usize = n: nat | n <= UsizeMax

  /** The marker whose first occurrence starts the numeric suffix. */
  const IdMarker: string := "id="

  predicate IsDigit(c: char)
  {
    '0' <= c <= '9'
  }

  predicate AllDigits(s: string)
  {
    forall i :: 0 <= i < |s| ==> IsDigit(s[i])
  }

  function DigitValue(c: char): (d: nat)
    requires IsDigit(c)
    ensures d < 10
  {
    c as int - '0' as int
  }

  function DigitChar(d: nat): (c: char)
    requires d < 10
    ensures IsDigit(c) && DigitValue(c) == d
  {
    ('0' as int + d) as char
  }

  /** The value of a string of decimal digits, most significant first. */
  function DecimalValue(s: string): nat
    requires AllDigits(s)
  {
    if s == [] then 0 else 10 * DecimalValue(s[..|s| - 1]) + DigitValue(s[|s| - 1])
  }

  /** The canonical decimal rendering of `n`: no sign, no leading zeros. */
  function Decimal(n: nat): (s: string)
    ensures s != [] && AllDigits(s)
    ensures |s| > 1 ==> s[0] != '0'
  {
    if n < 10 then [DigitChar(n)] else Decimal(n / 10) + [DigitChar(n % 10)]
  }

  /** The value of `s` read digit by digit, or None at the first character that is no digit. */
  function DigitsValue(s: string): Option<nat>
  {
    if s == [] then Some(0)
    else if !IsDigit(s[|s| - 1]) then None
    else match DigitsValue(s[..|s| - 1])
      case None => None
      case Some(v) => Some(10 * v + DigitValue(s[|s| - 1]))
  }

  /**
   * `<usize as FromStr>::from_str(s).ok()`: one optional leading `+`, then at
   * least one decimal digit and nothing else, and a value that fits in a usize.
   */
  function ParseUsize(s: string): (r: Option<Usize>)
    ensures r.Some? ==> s != [] && s != "+"
  {
    var digits := if |s| > 0 && s[0] == '+' then s[1..] else s;
    if digits == [] then None
    else match DigitsValue(digits)
      case None => None
      case Some(v) => if v <= UsizeMax then Some(v) else None
  }

  /** `get_id`: the usize after the first `id=` of an optional link target. */
  function GetId(url: Option<string>): (r: Option<Usize>)
    ensures r.Some? ==> url.Some? && IndexOf(url.value, IdMarker).Some?
  {
    match url
    case None => None
    case Some(u) =>
      match IndexOf(u, IdMarker)
      case None => None
      case Some(pos) => ParseUsize(u[pos + |IdMarker|..])
  }

  // ---- ParseUsize: what it accepts and what it rejects ----

  /** Reading digit by digit succeeds exactly on digit strings, with their decimal value. */
  lemma {:induction false} DigitsValueIsDecimal(s: string)
    ensures DigitsValue(s) == if AllDigits(s) then Some(DecimalValue(s)) else None
  {
    if s != [] {
      var init := s[..|s| - 1];
      DigitsValueIsDecimal(init);
      assert AllDigits(s) <==> AllDigits(init) && IsDigit(s[|s| - 1]) by {
        if AllDigits(init) && IsDigit(s[|s| - 1]) {
          forall i | 0 <= i < |s| ensures IsDigit(s[i]) {
            if i < |s| - 1 {
              assert s[i] == init[i];
            }
          }
        }
        if AllDigits(s) {
          forall i | 0 <= i < |init| ensures IsDigit(init[i]) {
            assert init[i] == s[i];
          }
        }
      }
    }
  }

  /** What the parser accepts: exactly one optional `+`, then a non-empty digit string whose value fits. */
  lemma ParseUsizeMeaning(s: string)
    ensures var digits := if |s| > 0 && s[0] == '+' then s[1..] else s;
      ParseUsize(s).Some? <==> digits != [] && AllDigits(digits) && DecimalValue(digits) <= UsizeMax
    ensures var digits := if |s| > 0 && s[0] == '+' then s[1..] else s;
      ParseUsize(s).Some? ==> ParseUsize(s).value == DecimalValue(digits)
  {
    DigitsValueIsDecimal(if |s| > 0 && s[0] == '+' then s[1..] else s);
  }

  /** A digit string whose value fits is accepted, with or without one `+`. */
  lemma ParseUsizeAccepts(digits: string)
    requires digits != [] && AllDigits(digits) && DecimalValue(digits) <= UsizeMax
    ensures ParseUsize(digits) == Some(DecimalValue(digits))
    ensures ParseUsize("+" + digits) == Some(DecimalValue(digits))
  {
    assert ("+" + digits)[1..] == digits;
    ParseUsizeMeaning(digits);
    ParseUsizeMeaning("+" + digits);
  }

  /** The empty string and a lone `+` are rejected. */
  lemma ParseUsizeRejectsEmpty()
    ensures ParseUsize("") == None
    ensures ParseUsize("+") == None
  {
  }

  /** Any character other than a digit, except one leading `+`, rejects the whole suffix. */
  lemma ParseUsizeRejectsNonDigit(s: string, i: nat)
    requires i < |s| && !IsDigit(s[i])
    requires i == 0 ==> s[0] != '+'
    ensures ParseUsize(s) == None
  {
    ParseUsizeMeaning(s);
    if s[0] == '+' {
      assert !IsDigit(s[1..][i - 1]);
    }
  }

  /** A value above usize::MAX is rejected, not wrapped. */
  lemma ParseUsizeRejectsOverflow(s: string)
    requires s != [] && AllDigits(s) && DecimalValue(s) > UsizeMax
    ensures ParseUsize(s) == None
  {
    ParseUsizeMeaning(s);
  }

  /** Reading back the decimal rendering of `n` gives `n`. */
  lemma {:induction false} DecimalValueOfDecimal(n: nat)
    ensures DecimalValue(Decimal(n)) == n
  {
    if n >= 10 {
      DecimalValueOfDecimal(n / 10);
      var s := Decimal(n);
      assert s[..|s| - 1] == Decimal(n / 10);
    }
  }

  /** Round trip of the number parser. */
  lemma ParseUsizeOfDecimal(n: Usize)
    ensures ParseUsize(Decimal(n)) == Some(n)
  {
    DecimalValueOfDecimal(n);
    assert IsDigit(Decimal(n)[0]);
    ParseUsizeMeaning(Decimal(n));
  }

  // ---- GetId ----

  /** Without a target there is no id. */
  lemma GetIdOfNone()
    ensures GetId(None) == None
  {
  }

  /** A target with no `id=` anywhere yields no id. */
  lemma GetIdWithoutMarker(u: string)
    requires forall q: nat :: !OccursAt(u, IdMarker, q)
    ensures GetId(Some(u)) == None
  {
    IndexOfIsFirstOccurrence(u, IdMarker);
  }

  /**
   * Only the first `id=` counts, and the WHOLE suffix after it must parse:
   * the id of `prefix + "id=" + suffix` is the usize spelled by `suffix`.
   */
  lemma GetIdFirstMarker(prefix: string, suffix: string)
    requires forall q: nat :: !OccursAt(prefix, IdMarker, q)
    ensures GetId(Some(prefix + IdMarker + suffix)) == ParseUsize(suffix)
  {
    var u := prefix + IdMarker + suffix;
    var k := |prefix|;
    assert OccursAt(u, IdMarker, k) by {
      assert u[k..k + 3] == IdMarker;
    }
    forall q: nat | q < k ensures !OccursAt(u, IdMarker, q) {
      if q + 3 <= k {
        assert u[q..q + 3] == prefix[q..q + 3];
        assert !OccursAt(prefix, IdMarker, q);
      } else {
        // The `=` of such an occurrence would fall on the `i` or `d` of the marker.
        assert u[q + 2] == IdMarker[q + 2 - k];
        assert u[q + 2] != '=';
      }
    }
    IndexOfIsFirst(u, IdMarker, k);
    assert u[k + 3..] == suffix;
  }

  /** Round trip: any target without `id=`, followed by `id=` and a rendered usize, gives it back. */
  lemma GetIdRoundTrip(prefix: string, n: Usize)
    requires forall q: nat :: !OccursAt(prefix, IdMarker, q)
    ensures GetId(Some(prefix + IdMarker + Decimal(n))) == Some(n)
  {
    GetIdFirstMarker(prefix, Decimal(n));
    ParseUsizeOfDecimal(n);
  }

  /** A prefix without any `=` cannot hold the marker. */
  lemma NoMarkerWithoutEquals(prefix: string)
    requires '=' !in prefix
    ensures forall q: nat :: !OccursAt(prefix, IdMarker, q)
  {
    forall q: nat ensures !OccursAt(prefix, IdMarker, q) {
      if q + 3 <= |prefix| {
        assert prefix[q..q + 3][2] == prefix[q + 2];
      }
    }
  }

  /** "series.html?id=42" names series 42. */
  lemma GetIdExampleSeriesPage(u: string)
    requires u == "series.html?id=42"
    ensures GetId(Some(u)) == Some(42)
  {
    var prefix, digits := "series.html?", "42";
    assert u == prefix + IdMarker + digits;
    NoMarkerWithoutEquals(prefix);
    GetIdFirstMarker(prefix, digits);
    ParseFortyTwo(digits);
  }

  /** "42" reads as 42. */
  lemma ParseFortyTwo(digits: string)
    requires digits == "42"
    ensures ParseUsize(digits) == Some(42)
  {
    var init := digits[..1];
    assert init == "4" && init[..0] == [] && digits[1] == '2';
    assert DigitsValue(init) == Some(4);
    assert DigitsValue(digits) == Some(42);
  }

  /** "?id=42&x=1" names nothing: `&x=1` belongs to the suffix, which must parse whole. */
  lemma GetIdExampleTrailingParameter(u: string)
    requires u == "?id=42&x=1"
    ensures GetId(Some(u)) == None
  {
    var prefix := "?";
    var suffix := u[4..];
    assert u == prefix + IdMarker + suffix;
    NoMarkerWithoutEquals(prefix);
    GetIdFirstMarker(prefix, suffix);
    assert suffix[2] == '&';
    ParseUsizeRejectsNonDigit(suffix, 2);
  }
}
