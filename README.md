# Sendgrid mail builder for Java, modelled in Dafny

The repository is a small Java client for the SendGrid Web API v2
`mail.send` endpoint. A caller builds a `Sendgrid` object: credentials,
sender, recipients, bcc list, subject, text and html parts, and an
"SMTP API" JSON header bag. The bag holds categories, substitutions,
sections, unique arguments and filter settings. `send` then turns the
builder's state into a form-encoded POST body and a URL, posts them,
and records how the server answered.

The repository holds two copies of this builder, and each is modelled
on its own:

- **Current** (`src/main/java/com/sendgrid/google/Sendgrid.java`, module
  `GoogleSendgrid`):
  - keeps recipient display names in non-header mode;
  - adds the library category to every category list it builds;
  - escapes non-ASCII characters of the `x-smtpapi` field;
  - reports warnings to a listener.
- **Legacy** (`Sendgrid.java`, module `LegacySendgrid`):
  - has only a single recipient list;
  - always puts `html` in the parameter map, so `send` throws when `html` is unset;
  - leaves `x-smtpapi` unescaped;
  - stores the outcome in `message`.

What both copies share is in `Wire`:

- the parameter names;
- the `&token[]=value` list encoding;
- the body as a concatenation of per-field segments;
- the request URL;
- the transport's answer;
- the header-mode decision;
- the two loops both contain, `arrayToUrlPart` and the errors loop.

`Headers` holds the typed header bag and its lazy `add*` helpers. `JavaLib`
models the few Java platform behaviours the code relies on: null as
`Option`, `String.trim`, `List.toString`, `HashMap.get` and the key order of
a `HashMap`.

Each builder is a `class` whose fields are the Java fields. Its mutators are
methods that state exactly which fields they change and to what. Some Java
library calls are parameters of the model:

- `URLEncoder.encode` is the parameter `enc`;
- `JSONObject.toString` is the parameter `render`;
- the HTTP exchange is an input `Transport`: a status with the `errors`
  array from the response body, a `MalformedURLException`, or an
  `IOException`.

`send` visits the parameter map in the `HashMap`'s iteration order. That
order is an input `order`, constrained to list every key exactly once. The
main results are these:

- for every such order, the body is built exactly when no null reaches
  `URLEncoder.encode`:
  - current copy: `subject`, `text` and `from` are all set;
  - legacy copy: `subject`, `html`, `text` and `from` are all set;
- the loop that builds the body computes the `Concat` of the per-field
  segments, where each segment is what one iteration appends;
- `escapeUnicode` always yields ASCII, reads back to the code it wrote,
  and is the identity on ASCII;
- without zero padding, two different strings escape to the same text.

Three behaviours of the code are easy to misread; the model follows the code:

- `setCategory` is documented as clearing the category list and adding the
  given category (src/main/java/com/sendgrid/google/Sendgrid.java:308). It also appends `CATEGORY`. The constructor
  calls `setCategory(CATEGORY)`, so a fresh builder holds the library
  category twice.
- `escapeUnicode` prints `\u` followed by the code point's lower-case hex
  digits without zero padding (`%x`). A code below U+1000 therefore gets
  fewer than four digits.
- `setTo` is documented as destroying the previous recipient data
  (src/main/java/com/sendgrid/google/Sendgrid.java:82). In the current copy it does not clear the display-name list,
  and in non-header mode it appends `""` to it.

The legacy send loop compares `key == "to"` by reference
(Sendgrid.java:527). The model compares by value: both operands are the same
interned string literal, so the two comparisons agree.

## Model

| member | source | states |
|---|---|---|
| JavaLib.TrimStart | src/main/java/com/sendgrid/google/Sendgrid.java:108 | `trim` drops a prefix made only of characters up to U+0020 and stops at the first other one |
| JavaLib.TrimEnd | src/main/java/com/sendgrid/google/Sendgrid.java:108 | `trim` drops a suffix made only of characters up to U+0020 and stops at the last other one |
| JavaLib.Trim | src/main/java/com/sendgrid/google/Sendgrid.java:108 | `trim` never lengthens its input, and what it leaves neither starts nor ends with a character up to U+0020 |
| JavaLib.TrimIsEmptyIff | src/main/java/com/sendgrid/google/Sendgrid.java:108 | `name.trim().isEmpty()` holds exactly when every character of the name is at most U+0020 |
| JavaLib.ListToString | src/main/java/com/sendgrid/google/Sendgrid.java:571-573 | the `to`/`toname` value in non-header mode is the list in brackets, elements joined by ", " |
| JavaLib.Lookup | src/main/java/com/sendgrid/google/Sendgrid.java:599 | `data.get(key)` is the stored value for a present key and null for an absent one |
| JavaLib.JoinCons | src/main/java/com/sendgrid/google/Sendgrid.java:661-666 | the ", "-joined text read from the front: first element, then a separator before each later one |
| Wire.UrlPart | src/main/java/com/sendgrid/google/Sendgrid.java:525-536 | the list encoding is empty exactly for the empty list and otherwise starts with `&` |
| Wire.UrlPartCons | src/main/java/com/sendgrid/google/Sendgrid.java:525-536 | the encoding of a list is the first element's `&token[]=enc(x)` followed by the encoding of the rest |
| Wire.UrlPartFront | src/main/java/com/sendgrid/google/Sendgrid.java:525-536 | the encoding of a non-empty list is the first element's `&token[]=enc(x)` followed by the encoding of the rest of the list |
| Wire.UrlPartAppend | src/main/java/com/sendgrid/google/Sendgrid.java:525-536 | the encoding of a concatenation is the concatenation of the encodings |
| Wire.UrlPartWithoutLeadingAmpersand | src/main/java/com/sendgrid/google/Sendgrid.java:612 | `substring(1)` of a non-empty encoding starts `token[]=` with the first element and continues with the rest |
| Wire.ArrayToUrlPart | src/main/java/com/sendgrid/google/Sendgrid.java:525-536 | the loop builds exactly the list encoding, one piece per element, in order; the legacy copy (Sendgrid.java lines 463-477) does the same |
| Wire.RequestUrlShape | src/main/java/com/sendgrid/google/Sendgrid.java:630-633 | with no bcc the URL is domain plus endpoint; otherwise `?bcc[]=` with the first bcc, then `&bcc[]=` for each later one; the legacy copy (Sendgrid.java lines 536-540) does the same |
| Wire.RequestUrl | src/main/java/com/sendgrid/google/Sendgrid.java:629-633 | the URL starts with the base; it is longer than the base exactly when there is a bcc, and then a `?` follows the base; the legacy copy (Sendgrid.java lines 536-540) does the same |
| Wire.ConcatNoneIff | src/main/java/com/sendgrid/google/Sendgrid.java:598-627 | the body loop throws exactly when the segment of some visited key throws |
| Wire.ConcatNoneAt | src/main/java/com/sendgrid/google/Sendgrid.java:598-627 | a visited key whose segment throws makes the whole loop throw |
| Wire.ConcatAppend | src/main/java/com/sendgrid/google/Sendgrid.java:598-627 | the body of two runs of keys is the first run's body followed by the second's |
| Wire.ConcatSingle | src/main/java/com/sendgrid/google/Sendgrid.java:598-627 | one visited key contributes exactly its own segment |
| Wire.UseHeaders | src/main/java/com/sendgrid/google/Sendgrid.java:694-717 | the header-mode decision equals the `useHeaders` flag, whatever the bcc list holds; the legacy copy (Sendgrid.java lines 589-630) does the same |
| Wire.PreferNotToUseHeaders | src/main/java/com/sendgrid/google/Sendgrid.java:706-708 | with headers switched off the answer is true; with them on it is true exactly when there is no bcc; the legacy copy (Sendgrid.java lines 605-616) does the same |
| Wire.IsHeadersRequired | src/main/java/com/sendgrid/google/Sendgrid.java:715-717 | an accessor that returns the flag itself, in both copies (the legacy one at Sendgrid.java lines 623-630); the header-mode decision built from it is stated on Wire.UseHeaders |
| Wire.AppendErrors | src/main/java/com/sendgrid/google/Sendgrid.java:661-666 | the errors loop appends the errors, separated by ", ", to the previous answer text; the legacy copy (Sendgrid.java lines 569-574) does the same |
| Wire.ToAddress | src/main/java/com/sendgrid/google/Sendgrid.java:105 | an empty name gives the bare email; otherwise the entry is the name, `<`, the email and `>`, from which both parts can be read back; the legacy copy (Sendgrid.java line 75) does the same |
| Headers.PutSubstitution | src/main/java/com/sendgrid/google/Sendgrid.java:370-378 | creates `sub` if missing; maps the key to the values and leaves other keys and components unchanged; the legacy copy (Sendgrid.java lines 313-321) does the same |
| Headers.PutSection | src/main/java/com/sendgrid/google/Sendgrid.java:401-408 | creates `section` if missing; puts one key and leaves everything else unchanged; the legacy copy (Sendgrid.java lines 344-351) does the same |
| Headers.PutUniqueArgument | src/main/java/com/sendgrid/google/Sendgrid.java:431-446 | creates `unique_args` if missing; puts one key and leaves everything else unchanged; the legacy copy (Sendgrid.java lines 375-392) does the same |
| Headers.PutFilterSetting | src/main/java/com/sendgrid/google/Sendgrid.java:471-485 | creates whichever of filters, filter and settings is missing and sets `filters[name].settings[param]`; every other setting and filter, and every other component, is unchanged; the legacy copy (Sendgrid.java lines 418-432) does the same |
| GoogleSendgrid.HexDigit | src/main/java/com/sendgrid/google/Sendgrid.java:725 | a value below 16 prints as one lower-case hex digit |
| GoogleSendgrid.Hex | src/main/java/com/sendgrid/google/Sendgrid.java:725 | `%x` prints a non-empty string of lower-case hex digits with no leading zero |
| GoogleSendgrid.HexRoundTrip | src/main/java/com/sendgrid/google/Sendgrid.java:725 | reading the printed digits back gives the number printed |
| GoogleSendgrid.ExpandAppend | src/main/java/com/sendgrid/google/Sendgrid.java:719-731 | a per-character expansion of a concatenation is the concatenation of the expansions |
| GoogleSendgrid.EscapedIsAscii | src/main/java/com/sendgrid/google/Sendgrid.java:719-731 | the escaped text contains only characters up to 127 |
| GoogleSendgrid.EscapeCharNamesCode | src/main/java/com/sendgrid/google/Sendgrid.java:724-725 | a character above 127 becomes `\u` followed by hex digits that denote its code |
| GoogleSendgrid.EscapeChar | src/main/java/com/sendgrid/google/Sendgrid.java:723-728 | every escape is ASCII; a character is kept as it is exactly when its code is at most 127, and otherwise its escape starts with `\u` |
| GoogleSendgrid.EscapedOfAscii | src/main/java/com/sendgrid/google/Sendgrid.java:726-727 | ASCII text is left as it is |
| GoogleSendgrid.EscapedAppend | src/main/java/com/sendgrid/google/Sendgrid.java:719-731 | escaping a concatenation is concatenating the escapes |
| GoogleSendgrid.EscapeCollision | src/main/java/com/sendgrid/google/Sendgrid.java:725 | U+00E9 followed by "ab" and U+E9AB are different, yet both escape to `\ue9ab` |
| GoogleSendgrid.EscapeUnicode | src/main/java/com/sendgrid/google/Sendgrid.java:719-731 | the loop yields the character-by-character escape of its input, which is ASCII |
| GoogleSendgrid.AssembleBody | src/main/java/com/sendgrid/google/Sendgrid.java:597-627 | the body loop yields the concatenation of the segments of the keys in iteration order, or none when a null reaches the encoder |
| GoogleSendgrid.Segment | src/main/java/com/sendgrid/google/Sendgrid.java:599-627 | one iteration throws exactly when it hands a null value to the encoder (`to` with recipients in non-header mode and `toname` with names never do); every segment it appends ends with `&` |
| GoogleSendgrid.Classify | src/main/java/com/sendgrid/google/Sendgrid.java:654-673 | 200 gives "success" and no warning; another status appends the errors to the previous answer and warns with it; a malformed URL or an I/O failure keeps the answer and warns with the fixed text |
| GoogleSendgrid.Answer | src/main/java/com/sendgrid/google/Sendgrid.java:654-673 | the branch that reads the answer yields exactly the answer text and warning Classify gives |
| GoogleSendgrid.BaseParams | src/main/java/com/sendgrid/google/Sendgrid.java:547-561 | credentials, subject, text and from always present and holding the fields; html, fromname and replyto present exactly when set; no `to`, `toname` or `x-smtpapi` yet |
| GoogleSendgrid.ParamMap | src/main/java/com/sendgrid/google/Sendgrid.java:544-578 | which keys are present and what each holds; header mode gives `to` = from and the escaped sidecar, non-header mode gives the list texts; only subject, text, from and `to` may be null |
| GoogleSendgrid.NameEntry | src/main/java/com/sendgrid/google/Sendgrid.java:108-112 | the display name entry is "" when every character of the name is at most U+0020, and the name itself otherwise |
| GoogleSendgrid.Sendgrid.constructor | src/main/java/com/sendgrid/google/Sendgrid.java:58-66 | credentials set, headers on, nothing else set, category list = the library category twice |
| GoogleSendgrid.Sendgrid.SetUseHeaders | src/main/java/com/sendgrid/google/Sendgrid.java:68-70 | only the flag changes |
| GoogleSendgrid.Sendgrid.SetFrom | src/main/java/com/sendgrid/google/Sendgrid.java:153-157 | only the sender changes |
| GoogleSendgrid.Sendgrid.SetFromName | src/main/java/com/sendgrid/google/Sendgrid.java:174-178 | only the sender name changes |
| GoogleSendgrid.Sendgrid.SetReplyTo | src/main/java/com/sendgrid/google/Sendgrid.java:195-199 | only the reply-to changes |
| GoogleSendgrid.Sendgrid.SetSubject | src/main/java/com/sendgrid/google/Sendgrid.java:244-248 | only the subject changes |
| GoogleSendgrid.Sendgrid.SetText | src/main/java/com/sendgrid/google/Sendgrid.java:265-269 | only the text part changes |
| GoogleSendgrid.Sendgrid.SetHtml | src/main/java/com/sendgrid/google/Sendgrid.java:286-290 | only the html part changes |
| GoogleSendgrid.Sendgrid.AddToName | src/main/java/com/sendgrid/google/Sendgrid.java:682-686 | one name appended to the display-name list |
| GoogleSendgrid.Sendgrid.AddTo | src/main/java/com/sendgrid/google/Sendgrid.java:103-117 | header mode appends `name<email>` (or the bare email) and leaves the names alone; otherwise appends the email and the name, or "" for a blank name |
| GoogleSendgrid.Sendgrid.AddToEmail | src/main/java/com/sendgrid/google/Sendgrid.java:125-127 | appends the bare email; in non-header mode also an empty name |
| GoogleSendgrid.Sendgrid.SetTo | src/main/java/com/sendgrid/google/Sendgrid.java:88-93 | the recipient list becomes the one email; the name list is kept and, in non-header mode, gains "" |
| GoogleSendgrid.Sendgrid.SetBcc | src/main/java/com/sendgrid/google/Sendgrid.java:218-227 | the bcc list becomes the one email; in header mode the bcc filter gets enable = "1" and email set |
| GoogleSendgrid.Sendgrid.SetCategories | src/main/java/com/sendgrid/google/Sendgrid.java:300-306 | categories become the given list followed by the library category; nothing else changes |
| GoogleSendgrid.Sendgrid.SetCategory | src/main/java/com/sendgrid/google/Sendgrid.java:315-321 | categories become the given category followed by the library category |
| GoogleSendgrid.Sendgrid.AddCategory | src/main/java/com/sendgrid/google/Sendgrid.java:330-338 | appends to an existing list, else the list becomes the category followed by the library category |
| GoogleSendgrid.Sendgrid.SetSubstitutions | src/main/java/com/sendgrid/google/Sendgrid.java:348-357 | only `sub` is replaced |
| GoogleSendgrid.Sendgrid.AddSubstitution | src/main/java/com/sendgrid/google/Sendgrid.java:370-378 | the header bag becomes PutSubstitution of the old one |
| GoogleSendgrid.Sendgrid.SetSections | src/main/java/com/sendgrid/google/Sendgrid.java:387-391 | only `section` is replaced |
| GoogleSendgrid.Sendgrid.AddSection | src/main/java/com/sendgrid/google/Sendgrid.java:401-408 | the header bag becomes PutSection of the old one |
| GoogleSendgrid.Sendgrid.SetUniqueArguments | src/main/java/com/sendgrid/google/Sendgrid.java:415-423 | only `unique_args` is replaced |
| GoogleSendgrid.Sendgrid.AddUniqueArgument | src/main/java/com/sendgrid/google/Sendgrid.java:431-446 | the header bag becomes PutUniqueArgument of the old one |
| GoogleSendgrid.Sendgrid.SetFilterSettings | src/main/java/com/sendgrid/google/Sendgrid.java:453-461 | only `filters` is replaced |
| GoogleSendgrid.Sendgrid.AddFilterSetting | src/main/java/com/sendgrid/google/Sendgrid.java:471-485 | the header bag becomes PutFilterSetting of the old one |
| GoogleSendgrid.Sendgrid.SetHeaders | src/main/java/com/sendgrid/google/Sendgrid.java:503-507 | the whole header bag is replaced |
| GoogleSendgrid.Sendgrid.PrepMessageData | src/main/java/com/sendgrid/google/Sendgrid.java:544-578 | returns the parameter map of the state before the call; in header mode the bag's `to` becomes the recipient list, otherwise the bag is unchanged |
| GoogleSendgrid.Sendgrid.BuildRequest | src/main/java/com/sendgrid/google/Sendgrid.java:596-633 | the body is the one the entry state's parameters give in the visited order, the URL is the bcc URL, and the bag's `to` is set exactly in header mode |
| GoogleSendgrid.Sendgrid.Send | src/main/java/com/sendgrid/google/Sendgrid.java:595-674 | throws with serverResponse untouched when the pending body has a null; otherwise posts that body to the bcc URL, warns and updates serverResponse as Classify says |
| GoogleSendgrid.Sendgrid.SendWithDefaultListener | src/main/java/com/sendgrid/google/Sendgrid.java:585-587 | the default listener leaves the last warning (or "success") in serverResponse |
| GoogleSendgrid.SidecarIsAscii | src/main/java/com/sendgrid/google/Sendgrid.java:563-569 | in header mode `x-smtpapi` is present and pure ASCII |
| GoogleSendgrid.BccFilterRegistered | src/main/java/com/sendgrid/google/Sendgrid.java:218-227 | after setBcc in header mode the bcc filter has enable = "1" and the email; every other setting is as before |
| GoogleSendgrid.BodyDefinedIffValues | src/main/java/com/sendgrid/google/Sendgrid.java:597-627 | for every key order, the loop builds a body exactly when no value it hands to the encoder is null |
| GoogleSendgrid.BodyDefinedIff | src/main/java/com/sendgrid/google/Sendgrid.java:597-627 | for every key order, a body is built exactly when subject, text and from are all set |
| GoogleSendgrid.ToFieldWithoutHeaders | src/main/java/com/sendgrid/google/Sendgrid.java:607-608 | in non-header mode `to` becomes `&to[]=` with each recipient, followed by `&` |
| GoogleSendgrid.ToFieldWithHeaders | src/main/java/com/sendgrid/google/Sendgrid.java:563-606 | in header mode with recipients the body's `to` is the sender once, and the recipients travel only in `x-smtpapi`, the escaped rendering of the bag with its `to` set to them (the bag update itself is PrepMessageData's) |
| GoogleSendgrid.ToFieldWithHeadersNoSender | src/main/java/com/sendgrid/google/Sendgrid.java:600-606 | in header mode with recipients and no sender, the `to` field throws |
| GoogleSendgrid.ToNameField | src/main/java/com/sendgrid/google/Sendgrid.java:611-612 | `toname` becomes `toname[]=` with the first name, `&toname[]=` with each later one, then `&` |
| GoogleSendgrid.BodySegment | src/main/java/com/sendgrid/google/Sendgrid.java:597-627 | each visited key's segment sits between the bodies of the keys before and after it |
| GoogleSendgrid.StructuredScenario | src/main/java/com/sendgrid/google/Sendgrid.java:544-578 | a fresh builder with from, one recipient, subject and text: `to` is the sender, the sidecar holds both library categories and the recipient, no `toname` or `html` |
| GoogleSendgrid.ErrorResponseScenario | src/main/java/com/sendgrid/google/Sendgrid.java:654-667 | for every key order, a fresh builder answered with one error ends with exactly that error in serverResponse; a 200 answer ends with "success" |
| GoogleSendgrid.HeaderModeKeys | src/main/java/com/sendgrid/google/Sendgrid.java:544-578 | header mode with no html, sender name or reply-to yields exactly seven parameter names |
| LegacySendgrid.ParamMap | Sendgrid.java:485-510 | subject, html, text and from are always present and possibly null; header mode gives `to` = from and the unescaped sidecar, otherwise `to` is the list text; never `fromname` or `toname` |
| LegacySendgrid.AssembleBody | Sendgrid.java:523-535 | the body loop yields the concatenation of the segments in iteration order, or none when a null reaches the encoder |
| LegacySendgrid.Segment | Sendgrid.java:525-534 | one iteration throws exactly when it hands a null value to the encoder (`to` with recipients never does); every segment it appends ends with `&` |
| LegacySendgrid.Classify | Sendgrid.java:562-580 | 200 gives "success"; another status appends the errors to the previous message; a malformed URL or an I/O failure gives the exception's name and message |
| LegacySendgrid.Answer | Sendgrid.java:562-581 | the branch that reads the answer yields exactly the message Classify gives |
| LegacySendgrid.Sendgrid.constructor | Sendgrid.java:38-41 | only the credentials are set; headers on, empty header bag, empty message |
| LegacySendgrid.Sendgrid.SetTo | Sendgrid.java:59-64 | the recipient list becomes the one email |
| LegacySendgrid.Sendgrid.AddTo | Sendgrid.java:74-79 | appends `name<email>`, or the bare email for an empty name, in either mode |
| LegacySendgrid.Sendgrid.AddToEmail | Sendgrid.java:87-89 | appends the bare email |
| LegacySendgrid.Sendgrid.SetFrom | Sendgrid.java:106-110 | only the sender changes |
| LegacySendgrid.Sendgrid.SetReplyTo | Sendgrid.java:127-131 | only the reply-to changes |
| LegacySendgrid.Sendgrid.SetBcc | Sendgrid.java:149-154 | the bcc list becomes the one email; the header bag is untouched |
| LegacySendgrid.Sendgrid.AddBcc | Sendgrid.java:162-170 | either branch leaves the old list with the email appended |
| LegacySendgrid.Sendgrid.SetSubject | Sendgrid.java:187-191 | only the subject changes |
| LegacySendgrid.Sendgrid.SetText | Sendgrid.java:208-212 | only the text part changes |
| LegacySendgrid.Sendgrid.SetHtml | Sendgrid.java:229-233 | only the html part changes |
| LegacySendgrid.Sendgrid.SetCategories | Sendgrid.java:243-248 | categories become exactly the given list |
| LegacySendgrid.Sendgrid.SetCategory | Sendgrid.java:257-262 | categories become exactly the one category |
| LegacySendgrid.Sendgrid.AddCategory | Sendgrid.java:271-279 | appends to an existing list, else the list becomes the one category |
| LegacySendgrid.Sendgrid.SetSubstitutions | Sendgrid.java:289-298 | only `sub` is replaced |
| LegacySendgrid.Sendgrid.AddSubstitution | Sendgrid.java:313-321 | the header bag becomes PutSubstitution of the old one |
| LegacySendgrid.Sendgrid.SetSections | Sendgrid.java:330-334 | only `section` is replaced |
| LegacySendgrid.Sendgrid.AddSection | Sendgrid.java:344-351 | the header bag becomes PutSection of the old one |
| LegacySendgrid.Sendgrid.SetUniqueArguments | Sendgrid.java:358-367 | only `unique_args` is replaced |
| LegacySendgrid.Sendgrid.AddUniqueArgument | Sendgrid.java:375-392 | the header bag becomes PutUniqueArgument of the old one |
| LegacySendgrid.Sendgrid.SetFilterSettings | Sendgrid.java:399-408 | only `filters` is replaced |
| LegacySendgrid.Sendgrid.AddFilterSetting | Sendgrid.java:418-432 | the header bag becomes PutFilterSetting of the old one |
| LegacySendgrid.Sendgrid.SetHeaders | Sendgrid.java:450-454 | the whole header bag is replaced |
| LegacySendgrid.Sendgrid.PrepMessageData | Sendgrid.java:485-510 | returns the parameter map of the state before the call; in header mode the bag's `to` becomes the recipient list |
| LegacySendgrid.Sendgrid.BuildRequest | Sendgrid.java:521-540 | the body is the one the entry state's parameters give in the visited order, the URL is the bcc URL, and the bag's `to` is set exactly in header mode |
| LegacySendgrid.Sendgrid.Send | Sendgrid.java:518-581 | throws with message untouched when the pending body has a null; otherwise posts that body to the bcc URL and sets message as Classify says |
| LegacySendgrid.BodyDefinedIffValues | Sendgrid.java:523-535 | for every key order, the loop builds a body exactly when no value it hands to the encoder is null |
| LegacySendgrid.BodyDefinedIff | Sendgrid.java:523-535 | for every key order, a body is built exactly when subject, html, text and from are all set |
| LegacySendgrid.ToFieldIsRecipients | Sendgrid.java:527-528 | with recipients `to` is always their array form, so in header mode too the recipients are posted in the clear |
| LegacySendgrid.SidecarIsRendering | Sendgrid.java:499-504 | in header mode `x-smtpapi` is the rendering of the bag with its `to` set, unescaped |
| LegacySendgrid.ErrorsAccumulate | Sendgrid.java:565-575 | an error status never resets message: the errors of two non-200 answers run together with no separator between them |
| LegacySendgrid.CategoryScenario | Sendgrid.java:271-279 | on a fresh builder addCategory yields exactly the one category |

## Left out

- Sharing by reference is not modelled. `setHeaders`, `setSubstitutions`,
  `setSections` and `setUniqueArguments` keep the caller's JSON object, and
  `getHeaders` and `getTos` hand out the live internal objects; the legacy
  `_prepMessageData` also puts the live recipient list into the bag. The
  model's fields are values, so a change the caller makes to such a shared
  object after the call is not seen by a later `send` here, while in Java it
  is.
- Network I/O, HTTP connections, streams and reading the response body are
  not modelled. The exchange is the input `Transport`.
- JSON parsing of the error body is not modelled. The errors arrive as a
  list of strings.
- `JSONObject.toString` is the parameter `render`, and `URLEncoder.encode`
  is the parameter `enc`. Their own behaviour is not modelled.
- The key order of a `HashMap` is the input `order`, constrained only to
  list every key once.
- Logging and the `UnsupportedEncodingException` paths, which cannot occur
  for UTF-8, are not modelled.
- `JSONException`, which none of the modelled puts can raise, is not
  modelled.
- Java `null` appears only where the code tests for it or passes it on: the
  optional fields are `Option`s. A null argument to a setter is not
  modelled.
- The legacy `use_headers` is a `Boolean` that could be null. It is
  modelled as a `bool` that is always true, because no code in the
  repository changes it.
- The header bag is typed and does not hold arbitrary JSON. `setHeaders`,
  `setSubstitutions` and the other wholesale setters take values of that
  type.
- GoogleSendgrid.EscapeUnicode: the input is a sequence of Unicode code
  points and each is escaped once. The Java loop calls `codePointAt` at
  every UTF-16 index, so a character above U+FFFF prints as its code point
  followed by an escape of its low surrogate: U+1F600 becomes `\u1f600\ude00`
  in Java and `\u1f600` in the model. UTF-16 surrogate pairs are not
  modelled.
- The fluent `return this` of every setter is not modelled, because every
  method changes its own object.
- The getters (`getTos`, `getFrom`, `getHeaders`, `getServerResponse` and so
  on) are not modelled as members. The model reads the fields directly.
- `HttpURLConnection` raising `IOException` for an error status is not
  modelled. The model accepts any combination of status and errors as
  input.
