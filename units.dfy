/** Size strings and unit tables: `parse_size` and the unit choice of
    `pretty_print_bytes` in limiter.py. Numbers are exact decimals rather than
    floats, and the chosen unit is returned instead of formatted text. */
module Units {
  import opened Wrappers

  /** One entry of a unit table: a lower-case letter and the number of bytes
      (or seconds) it stands for. */
  datatype Unit = Unit(letter: char, size: nat)

  /** `data_units`, in the dictionary's insertion order: powers of 1024. */
  const DataUnits: seq<Unit> :=
    [Unit('b', 1), Unit('k', 1024), Unit('m', 1048576),
     Unit('g', 1073741824), Unit('t', 1099511627776)]

  /** `time_units`: minute, hour, day and week, in seconds. */
  const TimeUnits: seq<Unit> :=
    [Unit('m', 60), Unit('h', 3600), Unit('d', 86400), Unit('w', 604800)]

  /** Why a size string was refused; the program raises ValueError for all three. */
  datatype ParseError =
    | InvalidNumber      // float() of the gathered digits and dots fails
    | InvalidMetric      // metric is neither 'TIME' nor 'DATA'
    | InvalidUnitFormat  // no character of the string is a unit letter

  /** A non-negative decimal number: mantissa / 10^scale. */
  datatype Decimal = Decimal(mantissa: nat, scale: nat)

  function Pow(b: nat, e: nat): nat
  {
    if e == 0 then 1 else b * Pow(b, e - 1)
  }

  lemma {:induction false} PowPositive(b: nat, e: nat)
    requires b > 0
    ensures Pow(b, e) > 0
  {
    if e > 0 {
      PowPositive(b, e - 1);
    }
  }

  /** Every data unit is 1024 raised to its position in the table. */
  lemma DataUnitsArePowersOf1024()
    ensures forall i :: 0 <= i < |DataUnits| ==> DataUnits[i].size == Pow(1024, i)
  {
    assert Pow(1024, 4) == 1099511627776;
  }

  // ---------------------------------------------------------------------------
  // Characters

  predicate IsDigit(c: char) { '0' <= c <= '9' }

  predicate IsUpper(c: char) { 'A' <= c <= 'Z' }

  /** Python's `str.lower` restricted to ASCII letters. */
  function LowerChar(c: char): char
  {
    if IsUpper(c) then (c as int + 32) as char else c
  }

  function UpperChar(c: char): char
  {
    if 'a' <= c <= 'z' then (c as int - 32) as char else c
  }

  function Lower(s: string): (r: string)
    ensures |r| == |s|
    ensures forall i :: 0 <= i < |s| ==> r[i] == LowerChar(s[i])
  {
    if s == [] then [] else [LowerChar(s[0])] + Lower(s[1..])
  }

  function Upper(s: string): (r: string)
    ensures |r| == |s|
    ensures forall i :: 0 <= i < |s| ==> r[i] == UpperChar(s[i])
  {
    if s == [] then [] else [UpperChar(s[0])] + Upper(s[1..])
  }

  // ---------------------------------------------------------------------------
  // The number part: every digit and '.' of the string, in order

  predicate IsNumberChar(c: char) { IsDigit(c) || c == '.' }

  function DigitCount(s: string): nat
  {
    if s == [] then 0 else (if IsDigit(s[0]) then 1 else 0) + DigitCount(s[1..])
  }

  function DotCount(s: string): nat
  {
    if s == [] then 0 else (if s[0] == '.' then 1 else 0) + DotCount(s[1..])
  }

  /** What float() asks of a string of digits and dots: at least one digit and
      at most one dot. */
  predicate WellFormedNumber(s: string)
  {
    DigitCount(s) > 0 && DotCount(s) <= 1
  }

  lemma {:induction false} CountsAppend(a: string, b: string)
    ensures DigitCount(a + b) == DigitCount(a) + DigitCount(b)
    ensures DotCount(a + b) == DotCount(a) + DotCount(b)
  {
    if a != [] {
      assert (a + b)[1..] == a[1..] + b;
      CountsAppend(a[1..], b);
    } else {
      assert a + b == b;
    }
  }

  lemma {:induction false} NumberCharCounts(t: string)
    requires forall i :: 0 <= i < |t| ==> IsNumberChar(t[i])
    ensures DigitCount(t) + DotCount(t) == |t|
    ensures DotCount(t) == 0 <==> '.' !in t
  {
    if t != [] {
      NumberCharCounts(t[1..]);
      assert t == [t[0]] + t[1..];
    }
  }

  /** The string float() sees: the digits and dots of `s`, wherever they are. */
  function NumberText(s: string): (r: string)
    ensures forall i :: 0 <= i < |r| ==> IsNumberChar(r[i])
    ensures DigitCount(r) == DigitCount(s) && DotCount(r) == DotCount(s)
  {
    if s == [] then []
    else
      var rest := NumberText(s[1..]);
      if IsNumberChar(s[0]) then
        var r := [s[0]] + rest;
        assert r[1..] == rest;
        r
      else
        rest
  }

  predicate AllDigits(ds: string)
  {
    forall i :: 0 <= i < |ds| ==> IsDigit(ds[i])
  }

  /** The value of a string of decimal digits. */
  function DigitsValue(ds: string): nat
    requires AllDigits(ds)
  {
    if ds == [] then 0
    else
      assert IsDigit(ds[|ds| - 1]);
      DigitsValue(ds[..|ds| - 1]) * 10 + (ds[|ds| - 1] as int - '0' as int)
  }

  /** Digits written after others shift them by one decimal place each. */
  lemma {:induction false} DigitsValueAppend(a: string, b: string)
    requires AllDigits(a) && AllDigits(b)
    ensures AllDigits(a + b)
    ensures DigitsValue(a + b) == DigitsValue(a) * Pow(10, |b|) + DigitsValue(b)
  {
    var ab := a + b;
    assert forall i :: 0 <= i < |ab| ==> IsDigit(ab[i]) by {
      forall i | 0 <= i < |ab| ensures IsDigit(ab[i]) {
        if i >= |a| { assert ab[i] == b[i - |a|]; }
      }
    }
    if b == [] {
      assert ab == a;
    } else {
      var init := b[..|b| - 1];
      assert AllDigits(init) by {
        forall i | 0 <= i < |init| ensures IsDigit(init[i]) { assert init[i] == b[i]; }
      }
      assert ab[..|ab| - 1] == a + init;
      assert ab[|ab| - 1] == b[|b| - 1];
      DigitsValueAppend(a, init);
      var d := b[|b| - 1] as int - '0' as int;
      calc {
        DigitsValue(ab);
        DigitsValue(a + init) * 10 + d;
        (DigitsValue(a) * Pow(10, |init|) + DigitsValue(init)) * 10 + d;
        { MulAssoc(DigitsValue(a), Pow(10, |init|), 10); }
        DigitsValue(a) * Pow(10, |b|) + (DigitsValue(init) * 10 + d);
      }
    }
  }

  lemma MulAssoc(x: nat, y: nat, z: nat)
    ensures x * y * z == x * (z * y)
  {
  }

  function IndexOf(s: string, c: char): (k: nat)
    requires c in s
    ensures k < |s| && s[k] == c && c !in s[..k]
  {
    if s[0] == c then 0 else 1 + IndexOf(s[1..], c)
  }

  /** The number whole.fraction written with the digit strings `whole` and
      `fraction`: its mantissa is all the digits read as one whole number, and
      its scale is the number of fraction digits. */
  function DecimalOf(whole: string, fraction: string): Decimal
    requires AllDigits(whole) && AllDigits(fraction)
  {
    Decimal(DigitsValue(whole) * Pow(10, |fraction|) + DigitsValue(fraction), |fraction|)
  }

  /** float() applied to a string of digits and dots: it accepts at most one dot
      and needs at least one digit ("5.", ".5" and "10" are numbers; "", "." and
      "1.2.3" are not). */
  function ParseNumber(t: string): (r: Option<Decimal>)
    requires forall i :: 0 <= i < |t| ==> IsNumberChar(t[i])
    ensures r.Some? <==> WellFormedNumber(t)
    ensures r.Some? && '.' !in t ==> AllDigits(t) && r.value == Decimal(DigitsValue(t), 0)
    ensures r.Some? && '.' in t ==>
      var k := IndexOf(t, '.');
      AllDigits(t[..k]) && AllDigits(t[k + 1..]) && r.value == DecimalOf(t[..k], t[k + 1..])
  {
    NumberCharCounts(t);
    if '.' in t then
      var k := IndexOf(t, '.');
      var whole, fraction := t[..k], t[k + 1..];
      assert t == whole + ['.'] + fraction;
      NumberCharsOfSlice(t, 0, k);
      NumberCharsOfSlice(t, k + 1, |t|);
      NumberCharCounts(whole);
      NumberCharCounts(fraction);
      CountsAppend(whole, ['.']);
      CountsAppend(whole + ['.'], fraction);
      if '.' in fraction then
        None
      else
        NoDotIsDigits(whole);
        NoDotIsDigits(fraction);
        DigitsValueAppend(whole, fraction);
        var ds := whole + fraction;
        if ds == [] then None else Some(Decimal(DigitsValue(ds), |fraction|))
    else
      NoDotIsDigits(t);
      if t == [] then None else Some(Decimal(DigitsValue(t), 0))
  }

  lemma NumberCharsOfSlice(t: string, lo: nat, hi: nat)
    requires forall i :: 0 <= i < |t| ==> IsNumberChar(t[i])
    requires lo <= hi <= |t|
    ensures forall i :: 0 <= i < hi - lo ==> IsNumberChar(t[lo..hi][i])
  {
  }

  /** Digits and dots without a dot are all digits. */
  lemma NoDotIsDigits(t: string)
    requires forall i :: 0 <= i < |t| ==> IsNumberChar(t[i])
    requires '.' !in t
    ensures AllDigits(t)
  {
    forall i | 0 <= i < |t| ensures IsDigit(t[i]) {
      assert t[i] in t;
    }
  }

  // ---------------------------------------------------------------------------
  // Unit tables

  predicate IsKey(units: seq<Unit>, c: char)
  {
    exists i :: 0 <= i < |units| && units[i].letter == c
  }

  /** `units[c]`: the size of the entry for letter `c`. */
  function Lookup(units: seq<Unit>, c: char): (size: nat)
    requires IsKey(units, c)
    ensures exists i :: 0 <= i < |units| && units[i] == Unit(c, size)
  {
    if units[0].letter == c then units[0].size
    else
      assert IsKey(units[1..], c) by {
        var i :| 0 <= i < |units| && units[i].letter == c;
        assert units[1..][i - 1] == units[i];
      }
      var size := Lookup(units[1..], c);
      assert exists i :: 0 <= i < |units| && units[i] == Unit(c, size) by {
        var i :| 0 <= i < |units[1..]| && units[1..][i] == Unit(c, size);
        assert units[i + 1] == Unit(c, size);
      }
      size
  }

  /** `next(char for char in size if char in units)`: the first character of
      `s` that is a letter of the table. */
  function FirstKey(s: string, units: seq<Unit>): (r: Option<char>)
    ensures r.None? <==> forall i :: 0 <= i < |s| ==> !IsKey(units, s[i])
    ensures r.Some? ==>
      IsKey(units, r.value) &&
      exists i :: 0 <= i < |s| && s[i] == r.value && forall j :: 0 <= j < i ==> !IsKey(units, s[j])
  {
    if s == [] then None
    else if IsKey(units, s[0]) then Some(s[0])
    else
      var r := FirstKey(s[1..], units);
      if r.Some? then
        var i :| 0 <= i < |s[1..]| && s[1..][i] == r.value &&
          forall j :: 0 <= j < i ==> !IsKey(units, s[1..][j]);
        assert s[i + 1] == r.value;
        assert forall j :: 0 <= j < i + 1 ==> !IsKey(units, s[j]) by {
          forall j | 0 <= j < i + 1 ensures !IsKey(units, s[j]) {
            if j > 0 { assert s[j] == s[1..][j - 1]; }
          }
        }
        r
      else
        assert forall i :: 0 <= i < |s| ==> !IsKey(units, s[i]) by {
          forall i | 0 <= i < |s| ensures !IsKey(units, s[i]) {
            if i > 0 { assert s[i] == s[1..][i - 1]; }
          }
        }
        r
  }

  /** Some character of `s`, once lower-cased, is a letter of the table. */
  predicate HasUnitLetter(s: string, units: seq<Unit>)
  {
    exists i :: 0 <= i < |s| && IsKey(units, LowerChar(s[i]))
  }

  lemma FirstKeyOfLower(s: string, units: seq<Unit>)
    ensures FirstKey(Lower(s), units).None? <==> !HasUnitLetter(s, units)
  {
    var r := FirstKey(Lower(s), units);
    if HasUnitLetter(s, units) {
      var i :| 0 <= i < |s| && IsKey(units, LowerChar(s[i]));
      assert IsKey(units, Lower(s)[i]);
    }
  }

  /** The table the metric names, or None for an unknown metric. */
  function UnitsFor(metric: string): Option<seq<Unit>>
  {
    if metric == "TIME" then Some(TimeUnits)
    else if metric == "DATA" then Some(DataUnits)
    else None
  }

  // ---------------------------------------------------------------------------
  // parse_size

  /** `int(number * multiplier)`: the product of a non-negative decimal and a
      multiplier, truncated to a whole number. */
  function Truncate(d: Decimal, multiplier: nat): (r: nat)
    ensures r * Pow(10, d.scale) <= d.mantissa * multiplier < (r + 1) * Pow(10, d.scale)
  {
    var p := Pow(10, d.scale);
    var product := d.mantissa * multiplier;
    PowPositive(10, d.scale);
    assert product >= 0;
    product / p
  }

  /** `parse_size(size, metric)`: lower-case the string, read its digits and dots
      as one number, pick its first unit letter and return the truncated product.
      The number is read before the metric is examined, so a string without a
      number fails with InvalidNumber whatever the metric and whatever letters it
      holds. */
  function ParseSize(size: string, metric: string): (r: Result<nat, ParseError>)
    ensures r == Err(InvalidNumber) <==> !WellFormedNumber(size)
    ensures r == Err(InvalidMetric) <==> WellFormedNumber(size) && UnitsFor(metric).None?
    ensures r == Err(InvalidUnitFormat) <==>
      WellFormedNumber(size) && UnitsFor(metric).Some? && !HasUnitLetter(size, UnitsFor(metric).value)
  {
    var s := Lower(size);
    LowerKeepsNumberChars(size);
    match ParseNumber(NumberText(s))
    case None => Err(InvalidNumber)
    case Some(d) =>
      match UnitsFor(metric)
      case None => Err(InvalidMetric)
      case Some(units) =>
        FirstKeyOfLower(size, units);
        match FirstKey(s, units)
        case None => Err(InvalidUnitFormat)
        case Some(c) => Ok(Truncate(d, Lookup(units, c)))
  }

  /** Lower-casing leaves digits and dots where they are. */
  lemma {:induction false} LowerKeepsNumberChars(s: string)
    ensures DigitCount(Lower(s)) == DigitCount(s) && DotCount(Lower(s)) == DotCount(s)
  {
    if s != [] {
      assert Lower(s)[1..] == Lower(s[1..]);
      LowerKeepsNumberChars(s[1..]);
    }
  }

  /** Decimal digits of a natural number, most significant first. */
  function NatToDigits(n: nat): (ds: string)
    ensures ds != []
    ensures forall i :: 0 <= i < |ds| ==> IsDigit(ds[i])
  {
    var last := ('0' as int + n % 10) as char;
    if n < 10 then [last] else NatToDigits(n / 10) + [last]
  }

  lemma {:induction false} DigitsValueOfNatToDigits(n: nat)
    ensures DigitsValue(NatToDigits(n)) == n
  {
    var ds := NatToDigits(n);
    assert ds[..|ds| - 1] == if n < 10 then [] else NatToDigits(n / 10);
    if n >= 10 {
      DigitsValueOfNatToDigits(n / 10);
    }
  }

  /** A string of digits and dots is its own number text. */
  lemma {:induction false} NumberTextOfNumber(ds: string)
    requires forall i :: 0 <= i < |ds| ==> IsNumberChar(ds[i])
    ensures NumberText(ds) == ds
  {
    if ds != [] {
      NumberTextOfNumber(ds[1..]);
      assert ds == [ds[0]] + ds[1..];
    }
  }

  lemma {:induction false} NumberTextAppend(s: string, c: char)
    requires !IsNumberChar(c)
    ensures NumberText(s + [c]) == NumberText(s)
  {
    if s == [] {
      assert NumberText([c]) == NumberText([c][1..]);
    } else {
      assert (s + [c])[1..] == s[1..] + [c];
      NumberTextAppend(s[1..], c);
    }
  }

  /** NumberText keeps the digits and dots of a string in their order: it maps
      a concatenation to the concatenation of the parts, keeps a digit or dot
      and drops any other character. */
  lemma {:induction false} NumberTextConcat(a: string, b: string, c: char)
    ensures NumberText(a + b) == NumberText(a) + NumberText(b)
    ensures NumberText([c]) == if IsNumberChar(c) then [c] else []
  {
    assert [c][1..] == [];
    if a == [] {
      assert a + b == b;
    } else {
      assert (a + b)[1..] == a[1..] + b;
      assert (a + b)[0] == a[0];
      NumberTextConcat(a[1..], b, c);
    }
  }

  /** The digits of a whole part, a dot and the digits of a fraction part, with at
      least one digit in all, read as the decimal whole.fraction. */
  lemma DecimalNumberValue(w: string, f: string)
    requires AllDigits(w) && AllDigits(f) && |w| + |f| > 0
    ensures forall i :: 0 <= i < |w + "." + f| ==> IsNumberChar((w + "." + f)[i])
    ensures ParseNumber(w + "." + f) == Some(DecimalOf(w, f))
  {
    var t := w + "." + f;
    DecimalNumberShape(w, f);
    assert t[..|w|] == w && t[|w| + 1..] == f;
  }

  /** whole.fraction is a well-formed number whose only dot is after the whole part. */
  lemma DecimalNumberShape(w: string, f: string)
    requires AllDigits(w) && AllDigits(f) && |w| + |f| > 0
    ensures forall i :: 0 <= i < |w + "." + f| ==> IsNumberChar((w + "." + f)[i])
    ensures '.' in w + "." + f && IndexOf(w + "." + f, '.') == |w|
    ensures WellFormedNumber(w + "." + f)
  {
    var t := w + "." + f;
    assert forall i :: 0 <= i < |t| ==> IsNumberChar(t[i]) by {
      forall i | 0 <= i < |t| ensures IsNumberChar(t[i]) {
        if i < |w| { assert t[i] == w[i]; }
        else if i > |w| { assert t[i] == f[i - |w| - 1]; }
      }
    }
    assert t[|w|] == '.';
    assert '.' !in w by {
      forall i | 0 <= i < |w| ensures w[i] != '.' { assert IsDigit(w[i]); }
    }
    assert t == w + ("." + f);
    IndexOfAfter(w, "." + f);
    DigitsCounts(w);
    DigitsCounts(f);
    CountsAppend(w, ".");
    CountsAppend(w + ".", f);
  }

  /** The first dot after a dot-free prefix is the one right after it. */
  lemma {:induction false} IndexOfAfter(w: string, rest: string)
    requires '.' !in w && rest != [] && rest[0] == '.'
    ensures '.' in w + rest && IndexOf(w + rest, '.') == |w|
  {
    assert (w + rest)[|w|] == '.';
    if w != [] {
      assert (w + rest)[0] == w[0];
      assert (w + rest)[1..] == w[1..] + rest;
      IndexOfAfter(w[1..], rest);
    }
  }

  /** A string of digits counts each character as a digit and holds no dot. */
  lemma {:induction false} DigitsCounts(ds: string)
    requires AllDigits(ds)
    ensures DigitCount(ds) == |ds| && DotCount(ds) == 0
  {
    if ds != [] {
      assert IsDigit(ds[0]);
      DigitsCounts(ds[1..]);
    }
  }

  lemma WholeNumberText(n: nat)
    ensures ParseNumber(NumberText(NatToDigits(n))) == Some(Decimal(n, 0))
  {
    var ds := NatToDigits(n);
    NumberTextOfNumber(ds);
    assert '.' !in ds by {
      forall i | 0 <= i < |ds| ensures ds[i] != '.' { assert IsDigit(ds[i]); }
    }
    DigitsValueOfNatToDigits(n);
  }

  /** The letters of the data table are distinct, so looking up the letter at
      position k finds the size at position k. */
  lemma LookupDataUnit(k: nat)
    requires k < |DataUnits|
    ensures IsKey(DataUnits, DataUnits[k].letter)
    ensures Lookup(DataUnits, DataUnits[k].letter) == DataUnits[k].size
  {
    assert DataUnits[k].letter == DataUnits[k].letter;
    var size := Lookup(DataUnits, DataUnits[k].letter);
    var i :| 0 <= i < |DataUnits| && DataUnits[i] == Unit(DataUnits[k].letter, size);
    assert i == k by {
      assert k == 0 || k == 1 || k == 2 || k == 3 || k == 4;
      assert i == 0 || i == 1 || i == 2 || i == 3 || i == 4;
    }
  }

  /** In a number followed by a key, the key is the first key. */
  lemma FirstKeyAfterNumber(ds: string, u: char, units: seq<Unit>)
    requires forall i :: 0 <= i < |ds| ==> IsNumberChar(ds[i])
    requires forall i :: 0 <= i < |units| ==> !IsNumberChar(units[i].letter)
    requires IsKey(units, u)
    ensures FirstKey(ds + [u], units) == Some(u)
  {
    var s := ds + [u];
    var r := FirstKey(s, units);
    assert s[|ds|] == u;
    var i :| 0 <= i < |s| && s[i] == r.value && forall j :: 0 <= j < i ==> !IsKey(units, s[j]);
  }

  /** A number written with digits and at most one dot, followed by the
      lower-case letter of the data unit at position k, reads as that number
      times the unit's size, truncated. */
  lemma NumberThenDataUnit(t: string, k: nat)
    requires forall i :: 0 <= i < |t| ==> IsNumberChar(t[i])
    requires WellFormedNumber(t)
    requires k < |DataUnits|
    ensures ParseSize(t + [DataUnits[k].letter], "DATA") ==
      Ok(Truncate(ParseNumber(t).value, DataUnits[k].size))
  {
    var u := DataUnits[k].letter;
    var s := t + [u];
    assert Lower(s) == s by {
      forall i | 0 <= i < |s| ensures LowerChar(s[i]) == s[i] {
        if i < |t| { assert IsNumberChar(s[i]); }
      }
    }
    NumberTextAppend(t, u);
    NumberTextOfNumber(t);
    LookupDataUnit(k);
    FirstKeyAfterNumber(t, u, DataUnits);
  }

  /** "10g" reads 10 * 2^30: a whole number followed by the lower-case letter of
      the data unit at position k parses to that number times 1024^k. */
  lemma WholeDataSize(n: nat, k: nat)
    requires k < |DataUnits|
    ensures ParseSize(NatToDigits(n) + [DataUnits[k].letter], "DATA") == Ok(n * Pow(1024, k))
  {
    var ds := NatToDigits(n);
    WholeNumberText(n);
    NumberTextOfNumber(ds);
    NumberCharCounts(ds);
    NumberThenDataUnit(ds, k);
    DataUnitsArePowersOf1024();
    assert Truncate(Decimal(n, 0), DataUnits[k].size) == n * DataUnits[k].size;
  }

  /** "1.5m" reads 1.5 * 2^20: digits, a dot, digits and the lower-case letter
      of the data unit at position k parse to whole.fraction times 1024^k,
      truncated. */
  lemma FractionDataSize(w: string, f: string, k: nat)
    requires AllDigits(w) && AllDigits(f) && |w| + |f| > 0
    requires k < |DataUnits|
    ensures ParseSize(w + "." + f + [DataUnits[k].letter], "DATA") ==
      Ok(Truncate(DecimalOf(w, f), Pow(1024, k)))
  {
    DecimalNumberValue(w, f);
    DecimalNumberShape(w, f);
    NumberThenDataUnit(w + "." + f, k);
    DataUnitsArePowersOf1024();
  }

  /** Lower-casing an upper-cased string gives the lower-cased original. */
  lemma LowerOfUpper(s: string)
    ensures Lower(Upper(s)) == Lower(s)
  {
    forall i | 0 <= i < |s| ensures Lower(Upper(s))[i] == Lower(s)[i] {
      var c := s[i];
      if 'a' <= c <= 'z' {
        assert UpperChar(c) as int == c as int - 32;
      } else if IsUpper(c) {
        assert UpperChar(c) == c;
      }
    }
  }

  /** The string is lower-cased first, so "10G" and "10g" read the same. */
  lemma ParseSizeIgnoresCase(size: string, metric: string)
    ensures ParseSize(Upper(size), metric) == ParseSize(size, metric)
  {
    LowerOfUpper(size);
  }

  /** "10g" and "10G" both read ten gibibytes. */
  lemma TenGibibytes()
    ensures ParseSize("10g", "DATA") == Ok(10737418240)
    ensures ParseSize("10G", "DATA") == Ok(10737418240)
  {
    WholeDataSize(10, 3);
    assert NatToDigits(10) + ['g'] == "10g";
    ParseSizeIgnoresCase("10g", "DATA");
    assert Upper("10g") == "10G";
  }

  /** A fraction is applied before truncation: "1.5m" is 1.5 * 2^20 exactly,
      and so is "1.5M". */
  lemma OneAndAHalfMebibytes()
    ensures ParseSize("1.5m", "DATA") == Ok(1572864)
    ensures ParseSize("1.5M", "DATA") == Ok(1572864)
  {
    OneAndAHalfLowerCase();
    assert Upper("1.5m") == "1.5M";
    ParseSizeIgnoresCase("1.5m", "DATA");
  }

  lemma OneAndAHalfLowerCase()
    ensures ParseSize("1.5m", "DATA") == Ok(1572864)
  {
    assert ParseNumber("1.5") == Some(Decimal(15, 1)) by {
      assert IndexOf("1.5", '.') == 1;
      assert "1.5"[..1] + "1.5"[2..] == "15";
      assert DigitsValue("15") == 15 by { assert "15"[..1] == "1"; }
    }
    assert DotCount("1.5") == 1 && DigitCount("1.5") == 2;
    NumberThenDataUnit("1.5", 2);
    assert "1.5" + [DataUnits[2].letter] == "1.5m";
    assert Truncate(Decimal(15, 1), 1048576) == 1572864 by {
      assert Pow(10, 1) == 10;
    }
  }

  /** "0.3k" is 307.2 bytes, truncated to 307. */
  lemma ThreeTenthsKibibyte()
    ensures ParseSize("0.3k", "DATA") == Ok(307)
  {
    assert ParseNumber("0.3") == Some(Decimal(3, 1)) by {
      assert IndexOf("0.3", '.') == 1;
      assert "0.3"[..1] + "0.3"[2..] == "03";
      assert DigitsValue("03") == 3 by { assert "03"[..1] == "0"; }
    }
    assert DotCount("0.3") == 1 && DigitCount("0.3") == 2;
    NumberThenDataUnit("0.3", 1);
    assert "0.3" + [DataUnits[1].letter] == "0.3k";
    assert Truncate(Decimal(3, 1), 1024) == 307 by {
      assert Pow(10, 1) == 10;
    }
  }

  /** The number is read first: "bogus" holds the unit letter 'b' but no digit,
      so it fails on its number; "1.2.3g" has two dots. */
  lemma MalformedNumbers()
    ensures ParseSize("bogus", "DATA") == Err(InvalidNumber)
    ensures ParseSize("1.2.3g", "DATA") == Err(InvalidNumber)
    ensures ParseSize("", "SPEED") == Err(InvalidNumber)
  {
    assert DigitCount("bogus") == 0;
    assert DotCount("1.2.3g") == 2;
  }

  /** A well-formed number with an unknown metric, or with no unit letter. */
  lemma MetricAndUnitErrors()
    ensures ParseSize("10g", "SPEED") == Err(InvalidMetric)
    ensures ParseSize("10x", "DATA") == Err(InvalidUnitFormat)
  {
    assert DigitCount("10g") == 2 && DotCount("10g") == 0;
    assert DigitCount("10x") == 2 && DotCount("10x") == 0;
    assert !HasUnitLetter("10x", DataUnits) by {
      forall i | 0 <= i < 3 ensures !IsKey(DataUnits, LowerChar("10x"[i])) {
        assert i == 0 || i == 1 || i == 2;
      }
    }
  }

  // ---------------------------------------------------------------------------
  // pretty_print_bytes: which unit is chosen

  lemma MulStrictMono(n: int, a: int, b: int)
    requires n > 0 && a < b
    ensures n * a < n * b
  {
  }

  /** Each data unit is 1024 times the one before it, so sizes strictly increase. */
  lemma DataUnitsGrow()
    ensures forall j :: 0 <= j < |DataUnits| - 1 ==> DataUnits[j + 1].size == 1024 * DataUnits[j].size
    ensures forall a, b :: 0 <= a < b < |DataUnits| ==> DataUnits[a].size < DataUnits[b].size
  {
    forall a, b | 0 <= a < b < |DataUnits| ensures DataUnits[a].size < DataUnits[b].size {
      assert a == 0 || a == 1 || a == 2 || a == 3;
      assert b == 1 || b == 2 || b == 3 || b == 4;
    }
  }

  /** The unit loop of `pretty_print_bytes`. It walks the data units in order and
      keeps a unit when it is the first one or when its quotient `n / size` is
      smaller than the kept one and still at least 1. The quotients are compared
      exactly: `n / size < n / minSize` is `n * minSize < n * size`, and
      `n / size >= 1` is `n >= size`. The result is the position and upper-case
      letter of the largest unit no larger than `n`, or B when there is none
      (`n < 1024`, including 0 and negative amounts). */
  method PrettyPrintUnit(byteAmount: int) returns (k: nat, letter: char)
    ensures k < |DataUnits| && letter == UpperChar(DataUnits[k].letter)
    ensures k > 0 ==> DataUnits[k].size <= byteAmount
    ensures forall j :: k < j < |DataUnits| ==> byteAmount < DataUnits[j].size
    ensures byteAmount < 1024 ==> letter == 'B'
    ensures k + 1 < |DataUnits| ==> byteAmount < 1024 * DataUnits[k].size
  {
    var minSize: Option<nat> := None;
    k := 0;
    for i := 0 to |DataUnits|
      invariant i == 0 <==> minSize.None?
      invariant k < |DataUnits| && (i > 0 ==> k < i && minSize == Some(DataUnits[k].size))
      invariant k > 0 ==> DataUnits[k].size <= byteAmount
      invariant forall j :: k < j < i ==> byteAmount < DataUnits[j].size
    {
      var size := DataUnits[i].size;
      if minSize.None? || (byteAmount * minSize.value < byteAmount * size && byteAmount >= size) {
        minSize := Some(size);
        k := i;
      } else {
        if byteAmount >= size {
          DataUnitsGrow();
          MulStrictMono(byteAmount, minSize.value, size);
        }
      }
    }
    DataUnitsGrow();
    if k + 1 < |DataUnits| {
      assert byteAmount < DataUnits[k + 1].size;
    }
    letter := UpperChar(DataUnits[k].letter);
  }
}
