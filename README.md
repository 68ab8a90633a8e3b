# Employee directory page script, modelled in Dafny

The page script `js/scripts.js` fetches twelve random employee profiles, renders one summary
card per employee into the `#gallery` container, and opens a detail overlay when a card is
clicked. This project models the data shaping and the ordering discipline of that script:

- `format_phone` and `format_birthday` as partial functions (`Format`): a regex match that comes
  back null makes the script's next index expression throw, modelled as `Err(fault)`;
- JavaScript's `String(n)` for the integer street number and a numeric postcode (`Decimal`);
- the employee record as the data source delivers it and the flattened `data-*` attribute set
  that `create_employee` stores on each card (`Employee`);
- the page as a class `Gallery.Page` with two sequence fields, the gallery's cards and the
  body's element children, and the script's state-changing steps as methods on it: creating one
  employee card, the `loop_over_employees` loop, opening an overlay (append to the body) and the
  close button (remove the body's last element child), and a click on a card.

Files: `outcomes.dfy` (faults and results), `chars.dfy` (the characters `\d` matches),
`decimal.dfy`, `format.dfy`, `employee.dfy`, `gallery.dfy`.

Two points of the code that shape the model:

- `create_employee` appends its own card (js/scripts.js:117) after both formatters have run, so a
  record that fails formatting appends nothing.
- `data-address` uses `String(...)` on the street number and the postcode. For a numeric postcode
  that is its decimal rendering, and for a text postcode it is the text itself. Both cases are
  modelled.

## Model

| member | source | states |
|---|---|---|
| Format.Digits | js/scripts.js:9 | the digits of the input in their original order (`replace(/\D/g, '')`): only ASCII digits, never longer than the input, and an all-digit input is unchanged |
| Format.DigitsConcat | js/scripts.js:9 | stripping non-digits from a concatenation is the concatenation of the stripped parts |
| Format.FormatPhone | js/scripts.js:7-13 | succeeds exactly when the stripped input has ten digits, and then lays them out as `(AAA) BBB-CCCC` (14 characters, groups in input order); every other count throws, with no truncation or padding |
| Format.DigitsOfLayout | js/scripts.js:11 | the punctuation of the template contributes no digits: stripping `(a) b-c` gives `a + b + c` |
| Format.PhoneKeepsDigits | js/scripts.js:9-11 | the formatted number holds exactly the input's digits |
| Format.PhoneSameIffSameDigits | js/scripts.js:9 | separators do not matter: two inputs format to the same number if and only if their digit sequences are equal |
| Format.PhoneIdempotent | js/scripts.js:9-11 | formatting a formatted number returns it unchanged |
| Format.FormatBirthday | js/scripts.js:16-25 | succeeds exactly when the input starts with `DDDD-DD-DD`, and then returns `Birthday: MM/DD/YYYY` built from positions 5-6, 8-9 and 0-3; any other input throws |
| Format.IsoDateOf | js/scripts.js:24 | reversing the rewrite gives a ten-character string with `-` at positions 4 and 7 |
| Format.BirthdayRoundTrip | js/scripts.js:18-24 | reversing the rewrite of a formatted birthday gives back the input's first ten characters |
| Format.BirthdayIgnoresSuffix | js/scripts.js:18 | characters after the ten-character date prefix do not change the result |
| Format.BirthdaySameIffSamePrefix | js/scripts.js:18-24 | two inputs give the same birthday if and only if they share the same ten-character date prefix |
| Decimal.NatToDecimal | js/scripts.js:110 | `String(n)` of a natural number is a non-empty digit string without leading zeros |
| Decimal.DecimalRoundTrip | js/scripts.js:110 | reading the rendered digits back gives the number |
| Decimal.CanonicalRoundTrip | js/scripts.js:110 | every digit string without leading zeros is the rendering of the number it denotes, so the rendering is a bijection onto such strings |
| Decimal.IntToString | js/scripts.js:110 | `String(n)` of an integer starts with `-` exactly when the integer is negative, and what follows the sign is the digits of its magnitude, without leading zeros, which read back as that magnitude |
| Decimal.NatToDecimalInjective | js/scripts.js:110 | equal renderings of natural numbers come from equal numbers |
| Decimal.IntToStringInjective | js/scripts.js:110 | distinct integers render to distinct strings |
| Employee.PostcodeString | js/scripts.js:114 | `String(postcode)` returns a text postcode unchanged; a numeric postcode becomes its sign (when negative) followed by digits without leading zeros that read back as its magnitude |
| Employee.PostcodeStringInjective | js/scripts.js:114 | two numeric postcodes render to the same string if and only if they are equal |
| Employee.Attributes | js/scripts.js:100-115 | the card's attributes exist if and only if both formatters succeed. The phone is checked first, so its error wins when both fail. Name is `first + " " + last`. Phone and birthday are the formatters' results. Email, city and photo are copied. Address is `number street, city, state postcode` |
| Employee.CardRecoversRecord | js/scripts.js:100-106 | the stored attributes give back the phone's digits, the birth-date prefix, the email, the city and the photo, and the stored name starts with the first name |
| Employee.AddressFixesStreetNumber | js/scripts.js:108-115 | equal composed addresses imply equal street numbers |
| Gallery.BuiltCards | js/scripts.js:100-125 | the cards built for a result list are the attribute sets of its records, in order, up to and not including the first record that fails to format |
| Gallery.RenderOutcome | js/scripts.js:121-125 | the loop completes if and only if every record formats. Otherwise it throws the error of the first failing record |
| Gallery.AllCardsBuilt | js/scripts.js:121-125 | when every record formats there are exactly N cards, card i being record i's attributes |
| Gallery.CardsUpToFirstFailure | js/scripts.js:102-125 | when record k is the first failure, exactly the cards of records 0 to k-1 are built and the error is record k's |
| Gallery.OverlayOpenedOnce | js/scripts.js:56-61 | with no overlay open the body holds only page elements, and opening one leaves exactly one overlay, as the last child |
| Gallery.Page.CreateEmployee | js/scripts.js:68-118 | on success the gallery gains exactly this record's card at its end. On a formatting error the error is thrown and the gallery is unchanged. The body is never touched |
| Gallery.Page.LoopOverEmployees | js/scripts.js:121-125 | the new gallery is the old one followed by `BuiltCards(results)`, and the outcome is `RenderOutcome(results)`. The body is unchanged |
| Gallery.Page.CreateDynamicModal | js/scripts.js:30-63 | the overlay built from the dataset becomes the body's last child. The overlay count rises by one and the gallery is unchanged |
| Gallery.Page.CloseModal | js/scripts.js:56-58 | removes the body's last element child, whatever it is, and lowers the overlay count when that child is an overlay. When no overlay is open, or the only one is the body's last child, none is open afterwards. With no element child it throws. The gallery is unchanged |
| Gallery.Page.SelectCard | js/scripts.js:132-138 | clicking card i appends the overlay of exactly that card's stored attributes to the body |
| Gallery.Page.SelectAndDismiss | js/scripts.js:56-61 | opening a card's overlay and then closing it restores the body's children exactly and leaves the gallery unchanged |

## Left out

- The `fetch` / `.then` / `.catch` chain and the JSON parsing of the response (js/scripts.js:162-166): network I/O and asynchronous sequencing. The records reach the model as a `seq<PersonRecord>`.
- `display_API_error` (js/scripts.js:145-158): it only replaces the body's HTML with a fixed message.
- The `innerHTML` templates of the card, the overlay and the error page: they only interpolate strings and do no escaping. The overlay is modelled as the node `ModalContainer(dataset)`, which holds the attributes it displays.
- The registration of click listeners in `loop_over_cards` (js/scripts.js:128-142) and on the close button. Their effects are modelled as `Page.SelectCard` and `Page.CloseModal`.
- `console.log` (js/scripts.js:70) and the global `api_url` (js/scripts.js:3).
- The JavaScript regex engine: the two patterns are modelled directly. The phone pattern becomes a digit filter plus a length test. The date pattern becomes fixed-position character checks.
- Real DOM nodes and text nodes. The body is the sequence of its element children only, because `lastElementChild` skips text nodes. The gallery is the sequence of its cards' attribute sets. The gallery container lies inside the body, but the model does not link those two fields.
- Decimal.IntToString: does not model `String(n)` for numbers that are not integers, for magnitudes above 2^53, where JavaScript prints the shortest digits that identify the number and pads with zeros (`String(2**64)` is `"18446744073709552000"`) while the model gives the exact digits, or for magnitudes of 1e21 and more, which JavaScript writes in exponent notation. Street numbers and postcodes from the data source are small integers.
- Records with missing or mistyped fields: `PersonRecord` always has every field, with the types above. In the script a non-string `phone` or `dob.date` throws at js/scripts.js:9 or 18, and so does a missing nested object (`name`, `location`, `street`, `dob`, `picture`). A missing or non-string leaf field (`email`, `city`, `state`, `street.name`, `street.number`, `postcode`, `first`, `last`, `picture.large`) does not throw: string concatenation, `String(...)` and `setAttribute` at js/scripts.js:100-115 turn it into `"undefined"` or its string form. None of these cases is modelled.
