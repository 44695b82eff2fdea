# Bahr Naturals cart and form logic in Dafny

This project models the two pieces of sequential logic in the Bahr Naturals
storefront scripts:

- **The shopping cart** of `js/cart-management.js`. The cart is an ordered
  sequence of line items `{id, name, price, image, quantity}` that is
  changed by `addItem`, `removeItem`, `updateQuantity` and `clearCart`.
  The model also covers:
  - the button handlers that decide which of those operations runs;
  - the derived figures (total, item count, shipping, HST);
  - the snapshot `proceedToCheckout` hands to the checkout page.
- **The string logic of `js/form-handler.js`**:
  - the phone and postal-code auto-formatters;
  - form and field classification (`getFormType`, `getFieldType`);
  - the validation rule table and the decisions of `validateField` and
    `validateForm`;
  - the per-form three-second submission rate limiter of `addFormSecurity`.

The cart is an immutable `seq<LineItem>`. Every operation returns a new
cart instead of mutating `this.items`. Prices are Dafny `real`s, which are
exact rationals. This is a deliberate abstraction of JavaScript's
floating-point numbers, so sums never drift. The values that handlers read
from the DOM become parameters:
- `dataset` attributes are `Option`s, where `None` is an absent attribute
  or a `NaN` parse;
- a field is a record of its value, its `required` flag, `data-validate`,
  name and type;
- the form's classes are a set;
- the clock reading of the rate limiter is an argument.

Each anchored regular expression of the validation rules is a sequence of
quantified character classes (module `Pattern`). `Matches` holds when some
split of the input gives every class a run of allowed length, which is
what a backtracking `RegExp.test` decides for expressions of this form. The
name, postal-code and e-mail rules are also stated directly as shape
predicates (`NameShape`, `PostalCodeShape`, `EmailShape`), and a lemma
proves each pattern equivalent to its shape.

Modules, one per file:
- `Wrappers` (`wrappers.dfy`): `Option` and `Result`;
- `CartItems` (`cart_items.dfy`): the store and its operations;
- `CartEvents` (`cart_events.dfy`): the click and change handlers;
- `CartPricing` (`cart_pricing.dfy`): the derived figures;
- `CartCheckout` (`cart_checkout.dfy`): the checkout snapshot;
- `Text` (`text.dfy`): character classes, `trim`, `includes`, case mapping
  and the `replace` filters;
- `Pattern` (`pattern.dfy`): the regular-expression fragment;
- `ValidationRules` (`validation_rules.dfy`): the rule table;
- `Formatters` (`formatters.dfy`): the two formatters;
- `FormFields` (`form_fields.dfy`): classification and validation;
- `RateLimiter` (`rate_limiter.dfy`): the rate limiter.

### Behaviour of the code worth knowing

- **Add-to-cart guard.** The guard at js/cart-management.js:67 only tests
  truthiness. It rejects a price of 0 or `NaN`, accepts a negative price and
  never tests the quantity, so a quantity of 0 or less is stored
  (`CartEvents.AddToCartAdmitsZeroQuantity`).
- **Checkout total.** `proceedToCheckout` rejects only an empty cart, so a
  snapshot with a negative total can be produced
  (`CartCheckout.CheckoutAdmitsNegativeTotal`).

## Model

| member | source | states |
|---|---|---|
| CartItems.FindIndex | js/cart-management.js:88 | `find` by id: `None` exactly when no entry has the id; otherwise the first index whose entry carries it |
| CartItems.FindIndexUnique | js/cart-management.js:88 | with unique ids, `find` lands on the one entry carrying the id |
| CartItems.AddItem | js/cart-management.js:87-94 | a new id is appended as a copy at the end; a present id's entry gains `product.quantity`, with the same length and every other entry unchanged |
| CartItems.AddItemAt | js/cart-management.js:88-91 | adding to a present id replaces exactly that one entry by itself with the summed quantity |
| CartItems.RemoveItem | js/cart-management.js:101-105 | no entry with the id survives; the survivors are exactly the entries with another id; an absent id leaves the cart unchanged |
| CartItems.RemoveItemAppend | js/cart-management.js:102 | the filter distributes over concatenation, so survivors keep their original order |
| CartItems.RemoveItemSplice | js/cart-management.js:101-105 | with unique ids, removing a present id splices out exactly its entry |
| CartItems.UpdateQuantity | js/cart-management.js:108-118 | an absent id changes nothing; a quantity of 0 or less equals removeItem; a positive one sets only that entry's quantity |
| CartItems.UpdateQuantityAt | js/cart-management.js:109-114 | a positive quantity on a present id replaces exactly the entry `find` returns, by itself with that quantity |
| CartItems.ClearCart | js/cart-management.js:326-329 | the cleared cart holds no id at all |
| CartItems.RemovedFrom | js/cart-management.js:102 | every entry that survives removal was an entry of the cart |
| CartItems.ConsUnique | js/cart-management.js:93 | putting an entry with a fresh id next to unique ids keeps them unique |
| CartItems.RemoveItemUnique | js/cart-management.js:101-105 | removal keeps ids unique |
| CartItems.RemoveItemWellFormed | js/cart-management.js:101-105 | removal keeps ids unique and quantities positive |
| CartItems.AddItemWellFormed | js/cart-management.js:87-94 | adding keeps ids unique, and keeps quantities positive when the added quantity is positive |
| CartItems.UpdateQuantityWellFormed | js/cart-management.js:108-118 | updating keeps the store invariant because a non-positive request removes the entry |
| CartItems.AddItemQuantity | js/cart-management.js:88-94 | the quantity recorded for the id grows by exactly the added quantity, whether the id was new or present |
| CartEvents.HandleAddToCart | js/cart-management.js:58-73 | fails, leaving the cart alone, exactly when id or name is empty or the price is 0 or NaN; otherwise adds the product with image defaulting to '' and quantity to 1: a new id is appended, and for a present id only the first entry carrying it (the one `find` returns) grows in quantity, the length and every other index unchanged |
| CartEvents.AddToCartAdmitsZeroQuantity | js/cart-management.js:64-67 | a negative price and a zero quantity pass the guard and produce a cart breaking the store invariant |
| CartEvents.HandleAddToCartUniqueIds | js/cart-management.js:58-73 | the handler keeps ids unique whatever attributes it is given |
| CartEvents.HandleRemoveFromCart | js/cart-management.js:122-128 | a missing or empty product id does nothing; otherwise the id is gone and exactly the other entries remain, in their original order and multiplicity, as `removeItem`'s filter leaves them |
| CartEvents.HandleQuantityUpdate | js/cart-management.js:131-143 | 'decrease' at quantity 1 removes the entry, 'increase' adds exactly 1, other actions or an unknown id change nothing, and no other entry changes |
| CartEvents.HandleQuantityUpdateWellFormed | js/cart-management.js:131-143 | the buttons keep the store invariant, and 'increase' raises the recorded quantity by one |
| CartEvents.HandleQuantityChange | js/cart-management.js:146-150 | typed text that parses to NaN or to 0 or less removes the entry; a positive number replaces that entry's quantity only, every other entry unchanged; an unknown id changes nothing |
| CartPricing.SubtotalAppend | js/cart-management.js:153-157 | the sum of line totals splits over concatenation |
| CartPricing.ItemCountAppend | js/cart-management.js:160-164 | the sum of quantities splits over concatenation |
| CartPricing.GetTotal | js/cart-management.js:153-157 | the left fold of price times quantity equals the sum of line totals |
| CartPricing.GetItemCount | js/cart-management.js:160-164 | the left fold of quantities equals the sum of quantities |
| CartPricing.Shipping | js/cart-management.js:295-298 | shipping is 0 exactly when the subtotal is at least 50, and otherwise 8.99 |
| CartPricing.Taxes | js/cart-management.js:301-303 | the tax is the 13% rate times the subtotal, and lies between 0 and the subtotal for a non-negative subtotal |
| CartPricing.GrandTotal | js/cart-management.js:263 | the order total is 113% of the subtotal, plus 8.99 shipping when the subtotal is below 50 |
| CartPricing.GrandTotalNotMonotone | js/cart-management.js:259-263 | because shipping drops to 0 at 50, a subtotal of 49 has a larger order total than one of 50 |
| CartPricing.SumsUpdate | js/cart-management.js:153-164 | replacing one entry moves subtotal and item count by exactly that entry's difference |
| CartPricing.AddItemCount | js/cart-management.js:87-94 | adding raises the item count by the added quantity |
| CartPricing.AddItemSubtotalNew | js/cart-management.js:92-94 | adding a new id raises the subtotal by the product's own line total |
| CartPricing.LineTotalGrow | js/cart-management.js:155 | a line total grows linearly with the quantity |
| CartPricing.SubtotalGrow | js/cart-management.js:153-157 | raising one entry's quantity raises the subtotal by the added units at that entry's price |
| CartPricing.AddItemSubtotalExisting | js/cart-management.js:88-91 | adding to a present id charges the added units at the stored price, ignoring the product's own price |
| CartPricing.RemoveItemSums | js/cart-management.js:101-105 | with unique ids, removal subtracts exactly the entry's line total and quantity |
| CartPricing.UpdateQuantitySums | js/cart-management.js:108-118 | a positive update moves the sums by that entry's change alone |
| CartPricing.QuantitySetSubtotal | js/cart-management.js:153-157 | setting one entry's quantity moves the subtotal by its price times the change in quantity |
| CartPricing.AddAllSameId | js/cart-management.js:87-94 | repeated adds of one id accumulate the sum of the added quantities, in the entry and in the item count |
| CartCheckout.ProceedToCheckout | js/cart-management.js:306-319 | an empty cart gives no snapshot; otherwise the snapshot holds the current items, the subtotal, shipping by the threshold rule, 13% tax and their sum as total |
| CartCheckout.SubtotalPositive | js/cart-management.js:153-157 | a non-empty cart of positive prices and quantities has a positive subtotal |
| CartCheckout.CheckoutTotalPositive | js/cart-management.js:306-319 | such a cart checks out with a positive total |
| CartCheckout.CheckoutAdmitsNegativeTotal | js/cart-management.js:306-319 | a negative price accepted on add reaches the snapshot as a negative total |
| CartCheckout.SingleSoapScenario | js/cart-management.js:306-319 | one soap at 18.00 gives count 1, shipping 8.99, tax 2.34, total 29.33 |
| CartCheckout.AddThenRemoveScenario | js/cart-management.js:87-105 | adding then removing an id returns to the empty cart, which cannot be checked out |
| CartCheckout.ClearCartSnapshot | js/cart-management.js:326-329 | a cleared cart has subtotal 0 and count 0 and cannot be checked out |
| Text.UpperChar | js/form-handler.js:467 | ASCII lower-case letters map to their upper case; every other character is kept |
| Text.LowerChar | js/form-handler.js:378 | ASCII upper-case letters map to their lower case; every other character is kept |
| Text.ToUpper | js/form-handler.js:467 | upper-casing works character by character and keeps the length |
| Text.ToLower | js/form-handler.js:378 | lower-casing works character by character and keeps the length |
| Text.Digits | js/form-handler.js:457 | removing non-digits leaves only digits and never lengthens the string |
| Text.Alnums | js/form-handler.js:467 | removing non-alphanumerics leaves only ASCII letters and digits |
| Text.DigitsAppend | js/form-handler.js:457 | the digit filter distributes over concatenation |
| Text.AlnumsAppend | js/form-handler.js:467 | the alphanumeric filter distributes over concatenation |
| Text.DigitsOfDigits | js/form-handler.js:457 | a digit string passes the digit filter unchanged |
| Text.AlnumsToUpper | js/form-handler.js:467 | filtering and upper-casing commute |
| Text.AlnumsOfAlnums | js/form-handler.js:467 | an alphanumeric string passes the filter unchanged |
| Text.AlnumsAround | js/form-handler.js:467 | the filter drops exactly the one separator between two alphanumeric runs |
| Text.AlnumsJoin | js/form-handler.js:467 | two alphanumeric runs pass the filter unchanged |
| Text.AlnumsDropOne | js/form-handler.js:467 | a trailing non-alphanumeric character is dropped |
| Text.DigitsDropOne | js/form-handler.js:457 | a character that is not a digit is dropped by the digit filter |
| Text.CaseMappingFacts | js/form-handler.js:378 | upper-casing is idempotent and lower-casing ignores a prior upper-casing |
| Text.SkipSpaceFrom | js/form-handler.js:211 | finds the first character that is not white space |
| Text.SkipSpaceBack | js/form-handler.js:211 | finds the end of the last character that is not white space |
| Text.TrimSlice | js/form-handler.js:211 | `trim` drops only white space, and what it keeps neither starts nor ends with white space |
| Text.TrimUnpadded | js/form-handler.js:211 | a string with no white space at either end is its own trim |
| Text.TrimBlank | js/form-handler.js:211 | the trim is empty exactly when the string is all white space |
| Text.TrimIdempotent | js/form-handler.js:211 | trimming twice is trimming once |
| Pattern.MatchesStep | js/form-handler.js:24-44 | a run for the first class followed by a match of the rest matches the whole |
| Pattern.MatchesStepAt | js/form-handler.js:24-44 | the same step for a suffix of a pattern |
| Pattern.MatchesSkip | js/form-handler.js:31 | a piece with minimum 0 can match nothing |
| Pattern.MatchesSkipFirst | js/form-handler.js:31 | the same for the first piece |
| Pattern.MatchesOne | js/form-handler.js:41 | a single-occurrence class consumes exactly one character of its class |
| Pattern.MatchesOptional | js/form-handler.js:41 | an optional class consumes nothing or one character of its class |
| Pattern.MatchesSingle | js/form-handler.js:36 | a one-piece pattern matches exactly the runs of its class of allowed length |
| Pattern.MatchesFixedPrefix | js/form-handler.js:41 | a prefix of single-occurrence classes fixes the first characters one by one |
| ValidationRules.RuleFor | js/form-handler.js:24-44 | exactly the four types email, phone, name and postalCode have a rule |
| ValidationRules.IsValidEmail | js/form-handler.js:388-390 | holds exactly for strings of the e-mail shape: no white space, one '@' with text before it, and a '.' inside the domain with text on both sides |
| ValidationRules.PostalCodeTailShape | js/form-handler.js:41 | `\d[A-Za-z]\d` matches exactly digit, letter, digit |
| ValidationRules.PostalCodeHeadShape | js/form-handler.js:41 | `[A-Za-z]\d[A-Za-z]` fixes the first three characters |
| ValidationRules.PostalCodeRuleShape | js/form-handler.js:40-43 | the postal-code pattern accepts exactly letter-digit-letter, an optional space or hyphen, digit-letter-digit |
| ValidationRules.NameRuleShape | js/form-handler.js:35-38 | the name pattern accepts exactly 2 to 50 ASCII letters and white space |
| ValidationRules.EmailRuleShape | js/form-handler.js:25-28 | the e-mail pattern accepts exactly a string with no white space and one '@', non-empty before it, and a '.' inside the domain with text on both sides |
| ValidationRules.EmailSplitFromRuns | js/form-handler.js:26 | runs without white space or '@' around one '@' and one '.' form an address |
| ValidationRules.EmailMatchRuns | js/form-handler.js:26 | an accepted address splits into the three non-empty runs the pattern consumes |
| ValidationRules.EmailRunsFlatten | js/form-handler.js:26 | those nested runs give the address split |
| ValidationRules.EmailMatchHasShape | js/form-handler.js:26 | every address the pattern accepts has the e-mail shape |
| ValidationRules.EmailDomainMatches | js/form-handler.js:26 | the domain of a shaped address matches `[^\s@]+\.[^\s@]+` |
| ValidationRules.EmailShapeMatches | js/form-handler.js:26 | every shaped address is accepted by the pattern |
| Formatters.PhoneLayoutNested | js/form-handler.js:460 | the layout is the right-nested concatenation of its parts |
| Formatters.PhoneLayoutEnds | js/form-handler.js:460 | the layout opens with '(' and ends on the last digit |
| Formatters.PhoneLayoutDigits | js/form-handler.js:457-460 | the layout's digits are the ten digits, in order |
| Formatters.FormatPhoneNumber | js/form-handler.js:456-463 | exactly ten digits anywhere give `(ddd) ddd-dddd` of those digits in order; any other input is returned unchanged |
| Formatters.FormatPhoneNumberIdempotent | js/form-handler.js:456-463 | formatting a formatted number changes nothing |
| Formatters.PhoneLineMatches | js/form-handler.js:31 | the tail of the phone pattern accepts `ddd-dddd` |
| Formatters.PhoneAreaMatches | js/form-handler.js:31 | the middle of the phone pattern accepts `ddd) ` before such a tail |
| Formatters.PhonePrefixMatches | js/form-handler.js:31 | the head of the phone pattern accepts a lone '(' |
| Formatters.PhoneHeadOptional | js/form-handler.js:31 | the first six pieces of the phone pattern may all match nothing, the second being an opening parenthesis |
| Formatters.PhoneLayoutMatches | js/form-handler.js:30-33 | the `(ddd) ddd-dddd` layout of any ten digits is accepted by the phone rule |
| Formatters.FormattedPhoneNumberValid | js/form-handler.js:30-33 | every formatted number is accepted by the phone rule |
| Formatters.FormatPostalCode | js/form-handler.js:466-473 | a cleaned value of letter-digit alternation gives seven characters with a space at index 3 around the cleaned code; otherwise the input upper-cased |
| Formatters.CleanFormatted | js/form-handler.js:467 | cleaning a formatted code gives back the compact code |
| Formatters.ToUpperKeepsUpper | js/form-handler.js:467 | upper-casing a string without lower-case letters changes nothing |
| Formatters.FormatPostalCodeIdempotent | js/form-handler.js:466-473 | formatting a formatted value changes nothing |
| Formatters.FormattedPostalCodeValid | js/form-handler.js:40-43 | every formatted code is accepted by the postal-code rule |
| Formatters.ShapedParts | js/form-handler.js:41 | a code the rule accepts is two alphanumeric halves with at most a separator between them |
| Formatters.CleanShaped | js/form-handler.js:467 | cleaning such a code keeps exactly its six letters and digits |
| Formatters.ToUpperAppend | js/form-handler.js:467 | upper-casing splits over concatenation |
| Formatters.ValidPostalCodeFormats | js/form-handler.js:466-473 | every code the rule accepts is normalised to `A9A 9A9` upper-cased |
| FormFields.GetFormType | js/form-handler.js:364-369 | newsletter over contact over checkout, generic when none is present, each as an if-and-only-if on the classes |
| FormFields.HandledFormsAreNotGeneric | js/form-handler.js:49-53 | a form the submit listener handles is never classified generic |
| FormFields.KeywordType | js/form-handler.js:378-382 | 'email' first, then 'phone' or 'tel', then 'name', then 'postal' or 'zip', otherwise nothing |
| FormFields.GetFieldType | js/form-handler.js:371-386 | a non-empty data-validate wins, then the keyword in the lower-cased name, then the input type |
| FormFields.GetFieldTypeIgnoresCase | js/form-handler.js:378 | the classification ignores the case of the name |
| FormFields.TelInsideWordIsPhone | js/form-handler.js:380 | a field named 'hotel' is validated as a phone number |
| FormFields.ValidateField | js/form-handler.js:210-243 | on the trimmed value: blank fails only when required; non-blank with a rule passes exactly when the pattern matches; without a rule an e-mail input must be an address |
| FormFields.ValidateFieldIgnoresPadding | js/form-handler.js:211 | surrounding white space never changes the outcome |
| FormFields.BlankFieldDecision | js/form-handler.js:211-220 | an all-white-space value fails exactly when the field is required |
| FormFields.NameFieldDecision | js/form-handler.js:222-228 | a name field passes exactly when optional and blank or 2 to 50 letters and spaces |
| FormFields.PostalCodeFieldDecision | js/form-handler.js:222-228 | a postal-code field passes exactly when optional and blank or a Canadian postal code |
| FormFields.EmailFieldDecision | js/form-handler.js:222-228 | an e-mail field passes exactly when optional and blank or of e-mail shape |
| FormFields.FormattedPostalCodeFieldValid | js/form-handler.js:466-473 | a postal-code field holding a formatted code validates |
| FormFields.FormattedPostalCodeTrimmed | js/form-handler.js:470 | a formatted code has no surrounding white space |
| FormFields.FormattedPhoneNumberTrimmed | js/form-handler.js:460 | a formatted number has no surrounding white space |
| FormFields.FormattedPhoneFieldValid | js/form-handler.js:456-463 | a phone field holding a formatted number validates |
| FormFields.AcceptedByRule | js/form-handler.js:222-228 | a trimmed non-blank value its rule accepts validates |
| FormFields.ValidateForm | js/form-handler.js:196-207 | every field is validated, none skipped, and the form passes exactly when all fields do |
| RateLimiter.SubmissionKey | js/form-handler.js:516 | the form's id, or its action when the id is empty |
| RateLimiter.Submit | js/form-handler.js:514-527 | refused exactly when a non-zero time is recorded for the form and less than 3000 ms passed; a refusal records nothing; an acceptance records now for that form only |
| RateLimiter.ResubmitWithinWindowRefused | js/form-handler.js:518-526 | a resubmission less than three seconds after an accepted non-zero reading is refused, also when the clock has stepped back below that reading |
| RateLimiter.Accepted | js/form-handler.js:514-527 | the accepted submissions are drawn from the arrivals |
| RateLimiter.AcceptedAfter | js/form-handler.js:520-526 | once a form's last acceptance is recorded at a non-zero time, every later acceptance of it comes at least 3000 ms after that time, on any clock that never reads 0, including one that steps backwards |
| RateLimiter.SpacedCons | js/form-handler.js:520-526 | an accepted submission with no same-form acceptance within a window after it keeps the accepted run spaced |
| RateLimiter.AcceptedSpaced | js/form-handler.js:514-527 | over any run of submissions whose clock never reads 0, even one that steps backwards, any two accepted submissions of the same form are at least 3000 ms apart in arrival order |

## Left out

- DOM rendering and event wiring are not modelled: `updateCartDisplay`, `renderCartItems`, `renderCartSummary`, field error display, loading states, honeypot and accessibility helpers. They are pure DOM side effects. `validateField`'s display of an error becomes the returned message.
- `loadCart` and `saveCart` are not modelled. They only alias `window.cartData`, so a model cart starts from the one passed in. The redirect to `checkout.html` is not modelled either.
- The checkout snapshot's `[...this.items]` is a shallow copy. The model's immutable snapshot cannot show later mutation of a shared item object.
- `showMessage` and its fallbacks are left out, along with the success messages and the button's loading timer. Messages appear only as the `Failure` error strings.
- Form submission, `fetch`, analytics, the CSRF token injection and `handleFormSubmission`'s dispatch by form type are I/O and are not modelled.
- The ordering of the two submit listeners is not modelled; only the rate limiter's decision is. The form handler's listener is registered during construction, before the limiter's. What a refusal means then depends on the form. (1) If a `.newsletter-form` or `.contact-form` is on the page at load, the constructor throws (see the line on the constructor below) and the limiter is never installed, so nothing is ever refused. (2) Otherwise, for a `.newsletter-form` or `.contact-form` inserted after load, a valid submission has already called `fetch` inside `handleNewsletterSubmission` or `handleContactSubmission` when the limiter refuses, and the refusal cannot stop that request. (3) For a `.checkout-form`, a valid submission reaches `this.handleCheckoutSubmission(form)` at js/form-handler.js:93, a method the class never defines, so the call throws after `setFormLoading` and no request starts whether or not the limiter refuses. The limiter's listener also fires on forms the handler ignores.
- `Date.now()` is an integer parameter.
- The model installs the rule table as a constant and does not model the constructor's ordering. The constructor at js/form-handler.js:9-11 runs `init()` before `this.forms` and `this.validationRules` exist. With any `.newsletter-form` or `.contact-form` on the page, the `this.forms.set` calls at js/form-handler.js:307 and :324 throw. The formatters and the rate limiter (js/form-handler.js:442-531) are then never installed, and `validationRules` stays undefined. The submit listener is already bound by then: `handleFormSubmission` calls `preventDefault` at js/form-handler.js:71 and then `validateForm` (:76), whose `validateField` throws at js/form-handler.js:222 on the first non-blank field. A form with any non-blank input therefore never submits; one whose inputs are all blank and not required passes `validateForm` and goes on to its submission handler. The blur listener at js/form-handler.js:56 never reaches `validateField`, because `blur` does not bubble to `document` and the listener is not registered for the capture phase.
- Floating-point arithmetic and `toFixed(2)` presentation are not modelled. Prices are exact rationals, so `Taxes` and `GrandTotal` are exact.
- CartEvents.HandleAddToCart: a `data-quantity` that parses to `NaN` is not modelled. An absent or empty attribute is `None`, which defaults to 1.
- Text.UpperChar: case mapping is ASCII only. Non-ASCII letters, which JavaScript's `toUpperCase` would also map, are kept unchanged.
- Text.LowerChar: case mapping is ASCII only. Non-ASCII letters, which JavaScript's `toLowerCase` would also map, are kept unchanged.
- RateLimiter.Accepted: its contract only bounds its result. Its real content is stated by `AcceptedSpaced` and `AcceptedAfter`.
- `js/payment-integration.js` and `js/main.js` are not part of this model. They are an SDK wrapper and page-interaction glue.
