/** The frequency-table key of `BrainsService.getInputAsJSON`:
    `JSON.stringify` of an object literal holding the five slider values, in
    the literal's field order. Numbers are written as JavaScript writes
    integers: optional minus sign, decimal digits, no leading zeros; a
    slider value that has become a string is written in double quotes. */
module Json {
  import opened Config

  predicate IsDigit(c: char)
  {
    '0' <= c <= '9'
  }

  /** The characters a serialized integer is made of. */
  predicate NumberChar(c: char)
  {
    IsDigit(c) || c == '-'
  }

  function DigitChar(d: int): (c: char)
    requires 0 <= d < 10
    ensures IsDigit(c)
  {
    "0123456789"[d]
  }

  function DigitValue(c: char): (d: int)
    requires IsDigit(c)
    ensures 0 <= d < 10
  {
    c as int - '0' as int
  }

  /** Decimal digits of a natural number, most significant first. */
  function NatToString(n: nat): (s: string)
    ensures |s| > 0
    ensures forall k :: 0 <= k < |s| ==> IsDigit(s[k])
    decreases n
  {
    if n < 10 then [DigitChar(n)] else NatToString(n / 10) + [DigitChar(n % 10)]
  }

  /** Reads decimal digits back. */
  function ParseNat(s: string): nat
    requires forall k :: 0 <= k < |s| ==> IsDigit(s[k])
  {
    if |s| == 0 then 0 else ParseNat(s[..|s| - 1]) * 10 + DigitValue(s[|s| - 1])
  }

  lemma {:induction false} NatRoundTrip(n: nat)
    ensures ParseNat(NatToString(n)) == n
    decreases n
  {
    if n >= 10 {
      var s := NatToString(n);
      assert s[..|s| - 1] == NatToString(n / 10);
      NatRoundTrip(n / 10);
    }
  }

  /** How `JSON.stringify` writes an integer-valued number. */
  function NumberToString(i: int): (s: string)
    ensures |s| > 0
    ensures forall k :: 0 <= k < |s| ==> NumberChar(s[k])
  {
    if i < 0 then "-" + NatToString(-i) else NatToString(i)
  }

  function ParseNumber(s: string): int
    requires forall k :: 0 <= k < |s| ==> NumberChar(s[k])
  {
    if |s| > 0 && s[0] == '-' && forall k :: 1 <= k < |s| ==> IsDigit(s[k]) then 0 - ParseNat(s[1..]) as int
    else if forall k :: 0 <= k < |s| ==> IsDigit(s[k]) then ParseNat(s)
    else 0
  }

  /** Serialized integers read back as themselves, so distinct integers
      serialize differently. */
  lemma {:induction false} NumberRoundTrip(i: int)
    ensures ParseNumber(NumberToString(i)) == i
  {
    if i < 0 {
      NegativeRoundTrip(i);
    } else {
      var s := NumberToString(i);
      assert s == NatToString(i);
      assert IsDigit(s[0]);
      NatRoundTrip(i);
    }
  }

  /** A negative number is a minus sign followed by the digits of its
      magnitude, and reads back through the first branch of `ParseNumber`. */
  lemma {:induction false} NegativeRoundTrip(i: int)
    requires i < 0
    ensures ParseNumber(NumberToString(i)) == i
  {
    var s := NumberToString(i);
    var digits := NatToString(-i);
    assert s == "-" + digits;
    assert s[1..] == digits;
    assert forall k :: 1 <= k < |s| ==> IsDigit(s[k]) by {
      forall k | 1 <= k < |s| ensures IsDigit(s[k]) {
        assert s[k] == digits[k - 1];
      }
    }
    NatRoundTrip(-i);
  }

  /** How `JSON.stringify` writes a slider value: a number bare, a string
      in double quotes (a decimal string needs no escaping). */
  function ValueToJson(v: SliderValue): string
  {
    match v
    case Number(n) => NumberToString(n)
    case Text(n) => "\"" + NumberToString(n) + "\""
  }

  /** `getInputAsJSON`. */
  function InputAsJson(p: Params): string
  {
    "{\"infectiousness\":" + (ValueToJson(p.infectiousness) +
    (",\"doctors\":" + (ValueToJson(p.doctors) +
    (",\"patients\":" + (ValueToJson(p.patients) +
    (",\"infected\":" + (ValueToJson(p.infected) +
    (",\"cycles\":" + (ValueToJson(p.cycles) + "}")))))))))
  }

  /** Two strings that each start with a serialized number followed by a
      character no number contains split the same way at that character. */
  lemma SplitAfterNumber(x: string, y: string, x': string, y': string)
    requires forall k :: 0 <= k < |x| ==> NumberChar(x[k])
    requires forall k :: 0 <= k < |x'| ==> NumberChar(x'[k])
    requires |y| > 0 && |y'| > 0 && !NumberChar(y[0]) && !NumberChar(y'[0])
    requires x + y == x' + y'
    ensures x == x' && y == y'
  {
    if |x| < |x'| {
      CharOfConcat(x, y, |x|);
      CharOfConcat(x', y', |x|);
      assert false;
    } else if |x| > |x'| {
      CharOfConcat(x, y, |x'|);
      CharOfConcat(x', y', |x'|);
      assert false;
    } else {
      assert x == (x + y)[..|x|];
      assert x' == (x' + y')[..|x'|];
    }
  }

  lemma CharOfConcat(x: string, y: string, k: int)
    ensures 0 <= k < |x| ==> (x + y)[k] == x[k]
    ensures |x| <= k < |x| + |y| ==> (x + y)[k] == y[k - |x|]
  {
  }

  /** What may follow a value in the key: a character that neither a number
      nor a string value starts or continues with. */
  predicate Delimited(rest: string)
  {
    |rest| > 0 && !NumberChar(rest[0]) && rest[0] != '"'
  }

  /** A serialized slider value followed by a delimiter determines the value,
      its kind included, and the remainder. */
  lemma {:induction false} ValueDetermined(a: SliderValue, rest: string, a': SliderValue, rest': string)
    requires Delimited(rest) && Delimited(rest')
    requires ValueToJson(a) + rest == ValueToJson(a') + rest'
    ensures a == a' && rest == rest'
  {
    match (a, a')
    case (Number(n), Number(n')) =>
      NumberDetermined(n, rest, n', rest');
    case (Text(n), Text(n')) =>
      TextDetermined(n, rest, n', rest');
    case (Number(n), Text(n')) =>
      KindsDiffer(n, rest, n', rest');
      assert false;
    case (Text(n), Number(n')) =>
      KindsDiffer(n', rest', n, rest);
      assert false;
  }

  lemma {:induction false} NumberDetermined(n: int, rest: string, n': int, rest': string)
    requires Delimited(rest) && Delimited(rest')
    requires NumberToString(n) + rest == NumberToString(n') + rest'
    ensures n == n' && rest == rest'
  {
    SplitAfterNumber(NumberToString(n), rest, NumberToString(n'), rest');
    NumberRoundTrip(n);
    NumberRoundTrip(n');
  }

  lemma {:induction false} TextDetermined(n: int, rest: string, n': int, rest': string)
    requires Delimited(rest) && Delimited(rest')
    requires ("\"" + NumberToString(n) + "\"") + rest == ("\"" + NumberToString(n') + "\"") + rest'
    ensures n == n' && rest == rest'
  {
    DropQuote(NumberToString(n), rest);
    DropQuote(NumberToString(n'), rest');
    SplitAfterNumber(NumberToString(n), "\"" + rest, NumberToString(n'), "\"" + rest');
    NumberRoundTrip(n);
    NumberRoundTrip(n');
    assert rest == ("\"" + rest)[1..];
    assert rest' == ("\"" + rest')[1..];
  }

  /** Past the opening quote of a string value come its digits, then the
      closing quote and what follows. */
  lemma DropQuote(digits: string, rest: string)
    ensures (("\"" + digits + "\"") + rest)[1..] == digits + ("\"" + rest)
  {
  }

  /** A number and a string never serialize to the same text, whatever
      follows them: one starts with a digit or a sign, the other with a
      quote. */
  lemma {:induction false} KindsDiffer(n: int, rest: string, n': int, rest': string)
    ensures NumberToString(n) + rest != ("\"" + NumberToString(n') + "\"") + rest'
  {
    CharOfConcat(NumberToString(n), rest, 0);
    CharOfConcat("\"" + NumberToString(n') + "\"", rest', 0);
  }

  /** One field of the key: after equal text, equal serialized values
      followed by a delimiter mean equal values and equal remainders. */
  lemma {:induction false} FieldDetermined(pre: string, a: SliderValue, rest: string, a': SliderValue, rest': string)
    requires Delimited(rest) && Delimited(rest')
    requires pre + (ValueToJson(a) + rest) == pre + (ValueToJson(a') + rest')
    ensures a == a' && rest == rest'
  {
    var s := pre + (ValueToJson(a) + rest);
    var s' := pre + (ValueToJson(a') + rest');
    assert s[|pre|..] == ValueToJson(a) + rest;
    assert s'[|pre|..] == ValueToJson(a') + rest';
    ValueDetermined(a, rest, a', rest');
  }

  /** Keys compare exactly: two parameter vectors share a key if and only if
      all five values agree, in number and in kind. So a slider moved back to
      its initial number gives a different key than the untouched slider. */
  lemma {:induction false} InputAsJsonInjective(p: Params, q: Params)
    ensures InputAsJson(p) == InputAsJson(q) <==> p == q
  {
    if InputAsJson(p) == InputAsJson(q) {
      var r5 := ",\"cycles\":" + (ValueToJson(p.cycles) + "}");
      var q5 := ",\"cycles\":" + (ValueToJson(q.cycles) + "}");
      var r4 := ",\"infected\":" + (ValueToJson(p.infected) + r5);
      var q4 := ",\"infected\":" + (ValueToJson(q.infected) + q5);
      var r3 := ",\"patients\":" + (ValueToJson(p.patients) + r4);
      var q3 := ",\"patients\":" + (ValueToJson(q.patients) + q4);
      var r2 := ",\"doctors\":" + (ValueToJson(p.doctors) + r3);
      var q2 := ",\"doctors\":" + (ValueToJson(q.doctors) + q3);
      FieldDetermined("{\"infectiousness\":", p.infectiousness, r2, q.infectiousness, q2);
      FieldDetermined(",\"doctors\":", p.doctors, r3, q.doctors, q3);
      FieldDetermined(",\"patients\":", p.patients, r4, q.patients, q4);
      FieldDetermined(",\"infected\":", p.infected, r5, q.infected, q5);
      FieldDetermined(",\"cycles\":", p.cycles, "}", q.cycles, "}");
    }
  }

  /** The same numbers give two keys: the vector as initialised, and the
      vector after a slider was moved away and back. */
  lemma {:induction false} MovedSliderChangesKey(p: Params)
    requires p.patients.Number?
    ensures InputAsJson(p.(patients := Text(p.patients.n))) != InputAsJson(p)
  {
    InputAsJsonInjective(p.(patients := Text(p.patients.n)), p);
  }

  /** Integers are written the way `JSON.stringify` writes them. */
  lemma NumberExamples()
    ensures NumberToString(10) == "10"
    ensures NumberToString(-7) == "-7"
    ensures NumberToString(0) == "0"
    ensures ValueToJson(Text(10)) == "\"10\""
  {
    assert NumberToString(10) == NatToString(1) + [DigitChar(0)];
  }
}
