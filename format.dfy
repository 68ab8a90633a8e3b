/**
 * The two field formatters of the page script: `format_phone` and `format_birthday`.
 * Each is one regex match followed by a template; when the match is null the script's
 * next index expression throws, which is the `Err` case here.
 */
module Format {
  import opened Outcomes
  import opened Chars

  /** `s.replace(/\D/g, '')`: the digits of `s`, in their original order. */
  function Digits(s: string): (d: string)
    ensures |d| <= |s|
    ensures AllDigits(d)
    ensures AllDigits(s) ==> d == s
    ensures forall c :: c in d ==> c in s
    decreases |s|
  {
    if s == [] then []
    else if IsDigit(s[0]) then [s[0]] + Digits(s[1..])
    else Digits(s[1..])
  }

  /** Stripping non-digits works piece by piece. */
  lemma {:induction false} DigitsConcat(a: string, b: string)
    ensures Digits(a + b) == Digits(a) + Digits(b)
    decreases |a|
  {
    if a == [] {
      assert a + b == b;
    } else {
      assert (a + b)[0] == a[0] && (a + b)[1..] == a[1..] + b;
      DigitsConcat(a[1..], b);
    }
  }

  /** The `(AAA) BBB-CCCC` layout of the ten digits `d` in the string `s`. */
  predicate PhoneLayout(d: string, s: string)
    requires |d| == 10
  {
    && |s| == 14
    && s[0] == '(' && s[1..4] == d[..3] && s[4] == ')' && s[5] == ' '
    && s[6..9] == d[3..6] && s[9] == '-' && s[10..] == d[6..]
  }

  /**
   * `format_phone`: the digits of `phone` must match `^(\d{3})(\d{3})(\d{4}$)`, that is, there
   * are exactly ten of them; they are laid out as `(AAA) BBB-CCCC`. Any other count throws:
   * nothing is truncated or padded.
   */
  function FormatPhone(phone: string): (r: Result<string>)
    ensures r.Ok? <==> |Digits(phone)| == 10
    ensures r.Err? ==> r.fault == PhoneNotTenDigits
    ensures r.Ok? ==> PhoneLayout(Digits(phone), r.value)
  {
    var d := Digits(phone);
    if |d| == 10 then Ok("(" + d[..3] + ") " + d[3..6] + "-" + d[6..]) else Err(PhoneNotTenDigits)
  }

  /** Digits of the three groups with the layout's punctuation around them. */
  lemma DigitsOfLayout(a: string, b: string, c: string)
    requires AllDigits(a) && AllDigits(b) && AllDigits(c)
    ensures Digits("(" + a + ") " + b + "-" + c) == a + b + c
  {
    var open, close, dash := "(", ") ", "-";
    assert Digits(open) == [] && Digits(close) == [] && Digits(dash) == [];
    var s1 := open + a;
    DigitsConcat(open, a);
    assert Digits(s1) == a;
    var s2 := s1 + close;
    DigitsConcat(s1, close);
    assert Digits(s2) == a;
    var s3 := s2 + b;
    DigitsConcat(s2, b);
    assert Digits(s3) == a + b;
    var s4 := s3 + dash;
    DigitsConcat(s3, dash);
    assert Digits(s4) == a + b;
    var s5 := s4 + c;
    DigitsConcat(s4, c);
    assert Digits(s5) == a + b + c;
  }

  /** The formatted number holds exactly the digits of the input, so no digit is lost or added. */
  lemma PhoneKeepsDigits(phone: string)
    requires FormatPhone(phone).Ok?
    ensures Digits(FormatPhone(phone).value) == Digits(phone)
  {
    var d := Digits(phone);
    var a, b, c := d[..3], d[3..6], d[6..];
    assert AllDigits(a) && AllDigits(b) && AllDigits(c);
    DigitsOfLayout(a, b, c);
    assert a + b + c == d;
  }

  /** Separators are irrelevant: two numbers format alike exactly when their digits agree. */
  lemma PhoneSameIffSameDigits(p: string, q: string)
    requires FormatPhone(p).Ok?
    ensures FormatPhone(p) == FormatPhone(q) <==> Digits(p) == Digits(q)
  {

  }

  /** Formatting an already formatted number changes nothing. */
  lemma PhoneIdempotent(phone: string)
    requires FormatPhone(phone).Ok?
    ensures FormatPhone(FormatPhone(phone).value) == FormatPhone(phone)
  {
    PhoneKeepsDigits(phone);
  }

  /** The input begins with `^(\d{4})-(\d{2})-(\d{2})`; whatever follows is not looked at. */
  predicate HasDatePrefix(s: string)
  {
    && |s| >= 10
    && AllDigits(s[..4]) && s[4] == '-' && AllDigits(s[5..7]) && s[7] == '-' && AllDigits(s[8..10])
  }

  /**
   * `format_birthday`: the year, month and day taken from positions 0-3, 5-6 and 8-9 of an
   * input that begins with `YYYY-MM-DD`, reordered as `Birthday: MM/DD/YYYY`. Any other input
   * throws; there is no fallback.
   */
  function FormatBirthday(birthdate: string): (r: Result<string>)
    ensures r.Ok? <==> HasDatePrefix(birthdate)
    ensures r.Err? ==> r.fault == BirthdayNotIsoDate
    ensures r.Ok? ==>
      && |r.value| == 20 && r.value[..10] == "Birthday: "
      && r.value[10..12] == birthdate[5..7] && r.value[12] == '/'
      && r.value[13..15] == birthdate[8..10] && r.value[15] == '/'
      && r.value[16..] == birthdate[..4]
  {
    if HasDatePrefix(birthdate) then
      var year, month, day := birthdate[..4], birthdate[5..7], birthdate[8..10];
      Ok("Birthday: " + month + "/" + day + "/" + year)
    else
      Err(BirthdayNotIsoDate)
  }

  /** The inverse rewrite: `Birthday: MM/DD/YYYY` back to `YYYY-MM-DD`. */
  function IsoDateOf(birthday: string): (iso: string)
    requires |birthday| == 20
    ensures |iso| == 10 && iso[4] == '-' && iso[7] == '-'
  {
    birthday[16..] + "-" + birthday[10..12] + "-" + birthday[13..15]
  }

  /** The formatted birthday determines the date prefix of the input exactly. */
  lemma BirthdayRoundTrip(birthdate: string)
    requires FormatBirthday(birthdate).Ok?
    ensures IsoDateOf(FormatBirthday(birthdate).value) == birthdate[..10]
  {

  }

  /** Characters after the ten-character date prefix do not affect the result. */
  lemma BirthdayIgnoresSuffix(birthdate: string, rest: string)
    requires |birthdate| >= 10
    ensures FormatBirthday(birthdate + rest) == FormatBirthday(birthdate)
  {
    var s := birthdate + rest;
    assert s[..4] == birthdate[..4] && s[5..7] == birthdate[5..7] && s[8..10] == birthdate[8..10];
  }

  /** Two birthdays format alike exactly when both inputs start with the same date prefix. */
  lemma BirthdaySameIffSamePrefix(a: string, b: string)
    requires FormatBirthday(a).Ok?
    ensures FormatBirthday(a) == FormatBirthday(b) <==> |b| >= 10 && a[..10] == b[..10]
  {
    if FormatBirthday(a) == FormatBirthday(b) {
      BirthdayRoundTrip(a);
      BirthdayRoundTrip(b);
    }
    if |b| >= 10 && a[..10] == b[..10] {
      BirthdayIgnoresSuffix(a[..10], a[10..]);
      BirthdayIgnoresSuffix(b[..10], b[10..]);
      assert a == a[..10] + a[10..] && b == b[..10] + b[10..];
    }
  }
}
