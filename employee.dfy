/**
 * One employee as the data source delivers it, and the flattened, display-ready attribute
 * set that `create_employee` stores on the employee's card (its `data-*` attributes).
 */
module Employee {
  import opened Outcomes
  import opened Decimal
  import opened Format

  datatype Name = Name(first: string, last: string)
  datatype Street = Street(number: int, name: string)
  /** The data source sends a postcode as a number or as a string, depending on the country. */
  datatype Postcode = NumericPostcode(code: int) | TextPostcode(text: string)
  datatype Location = Location(street: Street, city: string, state: string, postcode: Postcode)
  datatype Dob = Dob(date: string)
  datatype Picture = Picture(large: string)

  /** The fields of one element of the response's `results` that the script reads. */
  datatype PersonRecord = PersonRecord(
    name: Name, location: Location, email: string, phone: string, dob: Dob, picture: Picture)

  /** The `data-*` attributes of a card, read back later as the card's `dataset`. */
  datatype CardAttributes = CardAttributes(
    name: string, phone: string, birthday: string, email: string, city: string,
    photo: string, address: string)

  /**
   * `String(employee.location.postcode)`: a text postcode as it is, a numeric one in decimal,
   * so that the digits of a non-negative numeric postcode read back as that postcode.
   */
  function PostcodeString(p: Postcode): (s: string)
    ensures p.TextPostcode? ==> s == p.text
    ensures p.NumericPostcode? && p.code >= 0 ==> IsCanonical(s) && DecimalValue(s) == p.code
    ensures p.NumericPostcode? && p.code < 0 ==>
      |s| >= 2 && s[0] == '-' && IsCanonical(s[1..]) && DecimalValue(s[1..]) == -p.code
  {
    match p
    case NumericPostcode(n) => IntToString(n)
    case TextPostcode(t) => t
  }

  /** Distinct numeric postcodes appear as distinct strings in the address. */
  lemma PostcodeStringInjective(a: Postcode, b: Postcode)
    requires a.NumericPostcode? && b.NumericPostcode?
    ensures PostcodeString(a) == PostcodeString(b) <==> a == b
  {
    IntToStringInjective(a.code, b.code);
  }

  /** `number street, city, state postcode`, as composed for `data-address`. */
  function Address(loc: Location): string
  {
    IntToString(loc.street.number) + " " + loc.street.name + ", " + loc.city + ", " + loc.state
      + " " + PostcodeString(loc.postcode)
  }

  /**
   * The attribute set of a card. The phone is formatted before the birthday, so a record
   * with both fields malformed fails on its phone.
   */
  function Attributes(e: PersonRecord): (r: Result<CardAttributes>)
    ensures r.Ok? <==> FormatPhone(e.phone).Ok? && FormatBirthday(e.dob.date).Ok?
    ensures FormatPhone(e.phone).Err? ==> r == Err(PhoneNotTenDigits)
    ensures FormatPhone(e.phone).Ok? && FormatBirthday(e.dob.date).Err? ==> r == Err(BirthdayNotIsoDate)
    ensures r.Ok? ==>
      && r.value.name == e.name.first + " " + e.name.last
      && Ok(r.value.phone) == FormatPhone(e.phone)
      && Ok(r.value.birthday) == FormatBirthday(e.dob.date)
      && r.value.email == e.email && r.value.city == e.location.city
      && r.value.photo == e.picture.large
      && r.value.address == Address(e.location)
  {
    var name := e.name.first + " " + e.name.last;
    match FormatPhone(e.phone)
    case Err(f) => Err(f)
    case Ok(phone) =>
      match FormatBirthday(e.dob.date)
      case Err(f) => Err(f)
      case Ok(birthday) =>
        Ok(CardAttributes(name, phone, birthday, e.email, e.location.city, e.picture.large,
                          Address(e.location)))
  }

  /**
   * What a card keeps of its record: the phone's digits, the date prefix and
   * the copied fields can all be read back from the attribute set.
   */
  lemma CardRecoversRecord(e: PersonRecord)
    requires Attributes(e).Ok?
    ensures var card := Attributes(e).value;
      && Digits(card.phone) == Digits(e.phone)
      && |card.birthday| == 20 && IsoDateOf(card.birthday) == e.dob.date[..10]
      && card.email == e.email && card.city == e.location.city && card.photo == e.picture.large
      && card.name[..|e.name.first|] == e.name.first
  {
    PhoneKeepsDigits(e.phone);
    BirthdayRoundTrip(e.dob.date);
  }

  /** Equal addresses have equal street numbers: the number is everything before the first blank. */
  lemma AddressFixesStreetNumber(a: Location, b: Location)
    requires Address(a) == Address(b)
    ensures a.street.number == b.street.number
  {
    var sa, sb := IntToString(a.street.number), IntToString(b.street.number);
    var ra, rb := Address(a)[|sa|..], Address(b)[|sb|..];
    assert Address(a) == sa + ra && Address(b) == sb + rb;
    NoBlankInNumber(a.street.number);
    NoBlankInNumber(b.street.number);
    SamePrefixBeforeBlank(sa, ra, sb, rb);
    IntToStringInjective(a.street.number, b.street.number);
  }

  lemma NoBlankInNumber(n: int)
    ensures NoBlank(IntToString(n))
  {
  }

  predicate NoBlank(s: string)
  {
    forall i :: 0 <= i < |s| ==> s[i] != ' '
  }

  /** Two blank-free words each followed by a blank split one string in the same place. */
  lemma SamePrefixBeforeBlank(x: string, r: string, y: string, t: string)
    requires NoBlank(x) && NoBlank(y) && x + r == y + t
    requires |r| >= 1 && r[0] == ' ' && |t| >= 1 && t[0] == ' '
    ensures x == y
  {
    var w := x + r;
    assert x == w[..|x|] && y == w[..|y|];
  }
}
