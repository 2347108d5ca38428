/**
 * The current mail builder (package com.sendgrid.google): its fields and
 * mutators, the header-mode decision, the request parameters, the form body
 * and URL the send operation builds, the escaping of the `x-smtpapi` field
 * and the classification of the server's answer.
 *
 * URLEncoder.encode is the parameter `enc` and JSONObject.toString the
 * parameter `render`; the transport's answer is the parameter `transport`.
 */
module GoogleSendgrid {
  import opened JavaLib
  import opened Wire
  import Headers

  const DOMAIN: string := "https://sendgrid.com/"
  const ENDPOINT: string := "api/mail.send.json"

  /** The category every message of this library is tagged with. */
  const CATEGORY: string := "google_sendgrid_java_lib"

  // ---------------------------------------------------------------------------
  // escapeUnicode

  predicate IsAscii(s: string) {
    forall i :: 0 <= i < |s| ==> s[i] as int <= 127
  }

  predicate IsLowerHexDigit(c: char) {
    '0' <= c <= '9' || 'a' <= c <= 'f'
  }

  /** The digit `%x` prints for a value below 16. */
  function HexDigit(d: nat): (c: char)
    requires d < 16
    ensures IsLowerHexDigit(c)
  {
    if d < 10 then ('0' as int + d) as char else ('a' as int + d - 10) as char
  }

  function DigitValue(c: char): nat
    requires IsLowerHexDigit(c)
  {
    if c <= '9' then c as int - '0' as int else c as int - 'a' as int + 10
  }

  /** `String.format("%x", n)`: lower-case hexadecimal, no zero padding. */
  function Hex(n: nat): (r: string)
    ensures r != [] && forall i :: 0 <= i < |r| ==> IsLowerHexDigit(r[i])
    ensures n > 0 ==> r[0] != '0'
    decreases n
  {
    if n < 16 then [HexDigit(n)] else Hex(n / 16) + [HexDigit(n % 16)]
  }

  /** The number a string of hexadecimal digits denotes. */
  function HexValue(s: string): nat
    requires forall i :: 0 <= i < |s| ==> IsLowerHexDigit(s[i])
    decreases |s|
  {
    if s == [] then 0 else HexValue(s[..|s| - 1]) * 16 + DigitValue(s[|s| - 1])
  }

  /** Reading the digits back gives the number printed. */
  lemma {:induction false} HexRoundTrip(n: nat)
    ensures HexValue(Hex(n)) == n
    decreases n
  {
    if n >= 16 {
      var s := Hex(n);
      assert s[..|s| - 1] == Hex(n / 16);
      HexRoundTrip(n / 16);
    } else {
      assert Hex(n)[..0] == [];
    }
  }

  /** What escapeUnicode emits for one character. */
  function EscapeChar(c: char): (r: string)
    ensures IsAscii(r)
    ensures c as int <= 127 <==> r == [c]
    ensures c as int > 127 ==> |r| >= 3 && r[..2] == "\\u"
  {
    if c as int > 127 then "\\u" + Hex(c as int) else [c]
  }

  /** The text a loop builds by appending `f(c)` for each character `c` of `s`, in order. */
  function Expand(s: string, f: char -> string): string
    decreases |s|
  {
    if s == [] then "" else Expand(s[..|s| - 1], f) + f(s[|s| - 1])
  }

  /** Expanding works piece by piece. */
  lemma {:induction false} ExpandAppend(s: string, t: string, f: char -> string)
    ensures Expand(s + t, f) == Expand(s, f) + Expand(t, f)
    decreases |t|
  {
    if t == [] {
      assert s + t == s;
    } else {
      var st, init, last := s + t, t[..|t| - 1], t[|t| - 1];
      assert st[..|st| - 1] == s + init;
      assert st[|st| - 1] == last;
      ExpandAppend(s, init, f);
      assert Expand(st, f) == Expand(s, f) + Expand(init, f) + f(last);
      assert Expand(t, f) == Expand(init, f) + f(last);
    }
  }

  /** escapeUnicode of a string, character by character. */
  function Escaped(s: string): string {
    Expand(s, EscapeChar)
  }

  /** The escaped text is pure ASCII. */
  lemma {:induction false} EscapedIsAscii(s: string)
    ensures IsAscii(Escaped(s))
    decreases |s|
  {
    if s != [] {
      EscapedIsAscii(s[..|s| - 1]);
      var c := s[|s| - 1];
      if c as int > 127 {
        var h := Hex(c as int);
        assert forall i :: 0 <= i < |h| ==> IsLowerHexDigit(h[i]);
      }
    }
  }

  /** A character above 127 becomes `\u` and digits that denote its code. */
  lemma EscapeCharNamesCode(c: char)
    requires c as int > 127
    ensures var e := EscapeChar(c);
      && |e| >= 3 && e[..2] == "\\u"
      && (forall i :: 2 <= i < |e| ==> IsLowerHexDigit(e[i]))
      && HexValue(e[2..]) == c as int
  {
    var e := EscapeChar(c);
    assert e[2..] == Hex(c as int);
    HexRoundTrip(c as int);
  }

  /** Escaping leaves ASCII text as it is. */
  lemma {:induction false} EscapedOfAscii(s: string)
    requires IsAscii(s)
    ensures Escaped(s) == s
    decreases |s|
  {
    if s != [] {
      EscapedOfAscii(s[..|s| - 1]);
      assert s == s[..|s| - 1] + [s[|s| - 1]];
    }
  }

  /** Escaping works piece by piece. */
  lemma EscapedAppend(s: string, t: string)
    ensures Escaped(s + t) == Escaped(s) + Escaped(t)
  {
    ExpandAppend(s, t, EscapeChar);
  }

  /**
   * Without zero padding the escape is ambiguous: U+00E9 followed by "ab"
   * and the single character U+E9AB escape to the same six characters.
   */
  lemma EscapeCollision()
    ensures "\U{E9}ab" != "\U{E9AB}"
    ensures Escaped("\U{E9}ab") == Escaped("\U{E9AB}") == "\\ue9ab"
  {
    HexOfE9AB();
    EscapedSingle('\U{E9}');
    EscapedSingle('\U{E9AB}');
    assert Escaped("\U{E9}") == "\\ue9";
    assert Escaped("\U{E9AB}") == "\\ue9ab";
    assert "\U{E9}ab" == "\U{E9}" + "ab";
    EscapedAppend("\U{E9}", "ab");
    EscapedOfAscii("ab");
  }

  /** The two codes of the collision, printed with `%x`. */
  lemma HexOfE9AB()
    ensures Hex(0xE9) == "e9" && Hex(0xE9AB) == "e9ab"
  {
    assert HexDigit(14) == 'e' && HexDigit(9) == '9' && HexDigit(10) == 'a' && HexDigit(11) == 'b';
    assert Hex(0xE) == "e";
    assert Hex(0xE9) == Hex(0xE) + [HexDigit(9)] == "e9";
    assert Hex(0xE9A) == Hex(0xE9) + [HexDigit(10)] == "e9a";
    assert Hex(0xE9AB) == Hex(0xE9A) + [HexDigit(11)] == "e9ab";
  }

  /** A one-character string escapes to that character's escape. */
  lemma EscapedSingle(c: char)
    ensures Escaped([c]) == EscapeChar(c)
  {
    assert [c][..0] == [];
    assert Expand([c], EscapeChar) == Expand([], EscapeChar) + EscapeChar(c);
    assert "" + EscapeChar(c) == EscapeChar(c);
  }

  /** escapeUnicode: the loop over the input filling a StringBuilder. */
  method EscapeUnicode(input: string) returns (output: string)
    ensures output == Escaped(input)
    ensures IsAscii(output)
  {
    var sb := "";
    var i := 0;
    while i < |input|
      invariant 0 <= i <= |input|
      invariant sb == Escaped(input[..i])
    {
      var code := input[i] as int;
      if code > 127 {
        sb := sb + "\\u" + Hex(code);
      } else {
        sb := sb + [input[i]];
      }
      assert input[..i + 1][..i] == input[..i];
      i := i + 1;
    }
    assert input[..|input|] == input;
    output := sb;
    EscapedIsAscii(input);
  }

  // ---------------------------------------------------------------------------
  // The form body, the URL and the answer

  /**
   * What one iteration of the send loop appends for `key`; None when it
   * passes a null value to URLEncoder.encode, which throws.
   */
  function Segment(data: map<Field, Option<string>>, key: Field, tos: seq<string>, toNames: seq<string>,
                   headerMode: bool, enc: string -> string): (r: Option<string>)
    ensures r.None? <==> EncodesValue(key, tos, toNames, headerMode) && Lookup(data, key).None?
    ensures r.Some? ==> |r.value| > 0 && r.value[|r.value| - 1] == '&'
  {
    var value := Lookup(data, key);
    if key == To && |tos| > 0 then
      if headerMode then
        (if value.Some? then Some("to=" + enc(value.value) + "&") else None)
      else
        Some(UrlPart(tos, "to", enc) + "&")
    else if key == ToName && |toNames| > 0 then
      Some(UrlPart(toNames, "toname", enc)[1..] + "&")
    else if value.Some? then
      Some(enc(Name(key)) + "=" + enc(value.value) + "&")
    else
      None
  }

  function SegmentOf(data: map<Field, Option<string>>, tos: seq<string>, toNames: seq<string>,
                     headerMode: bool, enc: string -> string): Field -> Option<string>
  {
    key => Segment(data, key, tos, toNames, headerMode, enc)
  }

  /** The request body for the keys visited in `order`. */
  function Body(data: map<Field, Option<string>>, order: seq<Field>, tos: seq<string>, toNames: seq<string>,
                headerMode: bool, enc: string -> string): Option<string>
  {
    Concat(order, SegmentOf(data, tos, toNames, headerMode, enc))
  }

  /** The loop of send(WarningListener) that builds the request body from the parameter map. */
  method AssembleBody(data: map<Field, Option<string>>, order: seq<Field>, tos: seq<string>,
                      toNames: seq<string>, headerMode: bool, enc: string -> string)
    returns (body: Option<string>)
    ensures body == Body(data, order, tos, toNames, headerMode, enc)
  {
    ghost var seg := SegmentOf(data, tos, toNames, headerMode, enc);
    var sb := "";
    var i := 0;
    while i < |order|
      invariant 0 <= i <= |order|
      invariant Concat(order[..i], seg) == Some(sb)
    {
      var key := order[i];
      var value := Lookup(data, key);
      assert order[..i + 1][..i] == order[..i];
      var piece: string;
      if key == To && |tos| > 0 {
        if headerMode {
          if value.None? {
            ConcatNoneIff(order, seg);
            return None;
          }
          piece := "to=" + enc(value.value) + "&";
        } else {
          var part := ArrayToUrlPart(tos, "to", enc);
          piece := part + "&";
        }
      } else if key == ToName && |toNames| > 0 {
        var part := ArrayToUrlPart(toNames, "toname", enc);
        piece := part[1..] + "&";
      } else {
        if value.None? {
          ConcatNoneIff(order, seg);
          return None;
        }
        piece := enc(Name(key)) + "=" + enc(value.value) + "&";
      }
      assert seg(key) == Some(piece);
      sb := sb + piece;
      i := i + 1;
    }
    assert order[..|order|] == order;
    body := Some(sb);
  }

  /** The new serverResponse and the warning handed to the listener, if any. */
  datatype Classification = Classification(response: string, warning: Option<string>)

  /** How send classifies the transport's answer, given the previous serverResponse. */
  function Classify(previous: string, transport: Transport): (c: Classification)
    ensures transport.Response? && transport.status == HTTP_OK ==> c == Classification("success", None)
    ensures transport.Response? && transport.status != HTTP_OK ==>
      c.response == previous + Join(transport.errors, ", ") && c.warning == Some(c.response)
    ensures transport.MalformedUrl? ==> c == Classification(previous, Some("Malformed URL Exception"))
    ensures transport.IoFailure? ==> c == Classification(previous, Some("IO Exception"))
  {
    match transport
    case Response(status, errors) =>
      if status == HTTP_OK then Classification("success", None)
      else var r := previous + Join(errors, ", "); Classification(r, Some(r))
    case MalformedUrl(_) => Classification(previous, Some("Malformed URL Exception"))
    case IoFailure(_) => Classification(previous, Some("IO Exception"))
  }

  /**
   * The branch of send that reads the transport's answer: "success" on
   * HTTP_OK, otherwise the `errors` array appended to the previous answer;
   * an exception leaves the answer as it was and only warns.
   */
  method Answer(previous: string, transport: Transport) returns (response: string, warning: Option<string>)
    ensures Classification(response, warning) == Classify(previous, transport)
  {
    response := previous;
    match transport {
      case Response(status, errors) =>
        if status == HTTP_OK {
          response := "success";
          warning := None;
        } else {
          response := AppendErrors(response, errors);
          warning := Some(response);
        }
      case MalformedUrl(_) =>
        warning := Some("Malformed URL Exception");
      case IoFailure(_) =>
        warning := Some("IO Exception");
    }
  }

  /**
   * The parameter map of prepMessageData, given the builder's fields, the
   * header-mode decision and the escaped rendering of the header bag (used in
   * header mode only). Only subject, text and from (and `to`, which is from in
   * header mode) may be null.
   */
  function ParamMap(username: string, password: string, subject: Option<string>, html: Option<string>,
                    fromName: Option<string>, text: Option<string>, from: Option<string>, replyTo: Option<string>,
                    headerMode: bool, sidecar: string, toList: seq<string>, toNames: seq<string>)
    : (m: map<Field, Option<string>>)
    ensures ApiUser in m && m[ApiUser] == Some(username)
    ensures ApiKey in m && m[ApiKey] == Some(password)
    ensures Subject in m && m[Subject] == subject
    ensures Text in m && m[Text] == text
    ensures From in m && m[From] == from
    ensures (Html in m <==> html.Some?) && (Html in m ==> m[Html] == html)
    ensures (FromName in m <==> fromName.Some?) && (FromName in m ==> m[FromName] == fromName)
    ensures (ReplyTo in m <==> replyTo.Some?) && (ReplyTo in m ==> m[ReplyTo] == replyTo)
    ensures To in m
    ensures headerMode ==>
      && m[To] == from
      && ToName !in m
      && XSmtpApi in m
      && m[XSmtpApi] == Some(sidecar)
    ensures !headerMode ==>
      && m[To] == Some(ListToString(toList))
      && XSmtpApi !in m
      && (ToName in m <==> |toNames| > 0)
      && (ToName in m ==> m[ToName] == Some(ListToString(toNames)))
    ensures forall k :: k in m && m[k].None? ==> k == Subject || k == Text || k == From || k == To
  {
    var base := BaseParams(username, password, subject, html, fromName, text, from, replyTo);
    if headerMode then
      base[To := from][XSmtpApi := Some(sidecar)]
    else
      var m := base[To := Some(ListToString(toList))];
      if |toNames| > 0 then m[ToName := Some(ListToString(toNames))] else m
  }

  /** The part of the parameter map that does not depend on the header mode. */
  function BaseParams(username: string, password: string, subject: Option<string>, html: Option<string>,
                      fromName: Option<string>, text: Option<string>, from: Option<string>, replyTo: Option<string>)
    : (m: map<Field, Option<string>>)
    ensures ApiUser in m && m[ApiUser] == Some(username)
    ensures ApiKey in m && m[ApiKey] == Some(password)
    ensures Subject in m && m[Subject] == subject
    ensures Text in m && m[Text] == text
    ensures From in m && m[From] == from
    ensures (Html in m <==> html.Some?) && (Html in m ==> m[Html] == html)
    ensures (FromName in m <==> fromName.Some?) && (FromName in m ==> m[FromName] == fromName)
    ensures (ReplyTo in m <==> replyTo.Some?) && (ReplyTo in m ==> m[ReplyTo] == replyTo)
    ensures To !in m && ToName !in m && XSmtpApi !in m
    ensures forall k :: k in m && m[k].None? ==> k == Subject || k == Text || k == From
  {
    var m0 := map[ApiUser := Some(username), ApiKey := Some(password), Subject := subject];
    var m1 := if html.Some? then m0[Html := html] else m0;
    var m2 := if fromName.Some? then m1[FromName := fromName] else m1;
    var m3 := m2[Text := text][From := from];
    if replyTo.Some? then m3[ReplyTo := replyTo] else m3
  }

  /** addTo's entry in toNames in non-header mode. */
  function NameEntry(name: string): (r: string)
    ensures r == if forall i :: 0 <= i < |name| ==> IsTrimmable(name[i]) then "" else name
  {
    TrimIsEmptyIff(name);
    if Trim(name) != "" then name else ""
  }

  /** What send returns: the NullPointerException that escapes it, or what it posted and the warning it gave. */
  datatype SendOutcome =
    | NullPointerThrown
    | Posted(url: string, body: string, warning: Option<string>)

  // ---------------------------------------------------------------------------
  // The builder

  class Sendgrid {
    var useHeaders: bool
    var username: string
    var password: string
    var from: Option<string>
    var fromName: Option<string>
    var replyTo: Option<string>
    var subject: Option<string>
    var text: Option<string>
    var html: Option<string>
    var serverResponse: string
    var toList: seq<string>
    var toNames: seq<string>
    var bccs: seq<string>
    var headers: Headers.HeaderBag

    /** A fresh builder: headers on, nothing set, and the library category added twice. */
    constructor (username: string, password: string)
      ensures this.username == username && this.password == password
      ensures useHeaders && serverResponse == ""
      ensures from == fromName == replyTo == subject == text == html == None
      ensures toList == [] && toNames == [] && bccs == []
      ensures headers == Headers.Empty.(category := Some([CATEGORY, CATEGORY]))
    {
      this.username := username;
      this.password := password;
      useHeaders := true;
      from, fromName, replyTo, subject, text, html := None, None, None, None, None, None;
      serverResponse := "";
      toList, toNames, bccs := [], [], [];
      headers := Headers.Empty;
      new;
      SetCategory(CATEGORY);
    }

    method SetUseHeaders(flag: bool)
      modifies this`useHeaders
      ensures useHeaders == flag
    {
      useHeaders := flag;
    }

    method SetFrom(email: string)
      modifies this`from
      ensures from == Some(email)
    {
      from := Some(email);
    }

    method SetFromName(name: string)
      modifies this`fromName
      ensures fromName == Some(name)
    {
      fromName := Some(name);
    }

    method SetReplyTo(email: string)
      modifies this`replyTo
      ensures replyTo == Some(email)
    {
      replyTo := Some(email);
    }

    method SetSubject(subject: string)
      modifies this`subject
      ensures this.subject == Some(subject)
    {
      this.subject := Some(subject);
    }

    method SetText(text: string)
      modifies this`text
      ensures this.text == Some(text)
    {
      this.text := Some(text);
    }

    method SetHtml(html: string)
      modifies this`html
      ensures this.html == Some(html)
    {
      this.html := Some(html);
    }

    /** addToName: append one name. */
    method AddToName(name: string)
      modifies this`toNames
      ensures toNames == old(toNames) + [name]
    {
      toNames := toNames + [name];
    }

    /**
     * addTo(email, name): one entry more in toList; in header mode it is the
     * composite address, otherwise the bare email with the name (or "") in toNames.
     */
    method AddTo(email: string, name: string)
      modifies this`toList, this`toNames
      ensures useHeaders ==> toList == old(toList) + [ToAddress(email, name)] && toNames == old(toNames)
      ensures !useHeaders ==> toList == old(toList) + [email] && toNames == old(toNames) + [NameEntry(name)]
    {
      if UseHeaders(bccs, useHeaders) {
        var toAddress := if |name| > 0 then name + "<" + email + ">" else email;
        toList := toList + [toAddress];
      } else {
        if Trim(name) != "" {
          AddToName(name);
        } else {
          AddToName("");
        }
        toList := toList + [email];
      }
    }

    /** addTo(email): addTo with an empty name. */
    method AddToEmail(email: string)
      modifies this`toList, this`toNames
      ensures toList == old(toList) + [email]
      ensures toNames == if useHeaders then old(toNames) else old(toNames) + [""]
    {
      AddTo(email, "");
    }

    /** setTo: toList becomes the single email; toNames is not cleared. */
    method SetTo(email: string)
      modifies this`toList, this`toNames
      ensures toList == [email]
      ensures toNames == if useHeaders then old(toNames) else old(toNames) + [""]
    {
      toList := [];
      AddToEmail(email);
    }

    /** setBcc: the bcc list becomes the single email; in header mode the bcc filter is registered. */
    method SetBcc(email: string)
      modifies this`bccs, this`headers
      ensures bccs == [email]
      ensures headers == if useHeaders
        then Headers.PutFilterSetting(Headers.PutFilterSetting(old(headers), "bcc", "enable", "1"), "bcc", "email", email)
        else old(headers)
    {
      bccs := [email];
      if UseHeaders(bccs, useHeaders) {
        AddFilterSetting("bcc", "enable", "1");
        AddFilterSetting("bcc", "email", email);
      }
    }

    /** setCategories: the given list followed by the library category. */
    method SetCategories(categoryList: seq<string>)
      modifies this`headers
      ensures headers == old(headers).(category := Some(categoryList + [CATEGORY]))
    {
      headers := headers.(category := Some(categoryList));
      AddCategory(CATEGORY);
    }

    /** setCategory: the given category followed by the library category. */
    method SetCategory(category: string)
      modifies this`headers
      ensures headers == old(headers).(category := Some([category, CATEGORY]))
      decreases 1
    {
      headers := headers.(category := Some([category]));
      AddCategory(CATEGORY);
      assert [category] + [CATEGORY] == [category, CATEGORY];
    }

    /** addCategory: append to an existing list, else behave as setCategory. */
    method AddCategory(category: string)
      modifies this`headers
      ensures old(headers).category.Some? ==>
        headers == old(headers).(category := Some(old(headers).category.value + [category]))
      ensures old(headers).category.None? ==> headers == old(headers).(category := Some([category, CATEGORY]))
      decreases if headers.category.Some? then 0 else 2
    {
      if headers.category.Some? {
        headers := headers.(category := Some(headers.category.value + [category]));
      } else {
        SetCategory(category);
      }
    }

    /** setSubstitutions: replace the `sub` component wholesale. */
    method SetSubstitutions(keyValuePairs: map<string, seq<string>>)
      modifies this`headers
      ensures headers == old(headers).(sub := Some(keyValuePairs))
    {
      headers := headers.(sub := Some(keyValuePairs));
    }

    method AddSubstitution(fromValue: string, toValues: seq<string>)
      modifies this`headers
      ensures headers == Headers.PutSubstitution(old(headers), fromValue, toValues)
    {
      headers := Headers.PutSubstitution(headers, fromValue, toValues);
    }

    /** setSections: replace the `section` component wholesale. */
    method SetSections(keyValuePairs: map<string, string>)
      modifies this`headers
      ensures headers == old(headers).(section := Some(keyValuePairs))
    {
      headers := headers.(section := Some(keyValuePairs));
    }

    method AddSection(fromValue: string, toValue: string)
      modifies this`headers
      ensures headers == Headers.PutSection(old(headers), fromValue, toValue)
    {
      headers := Headers.PutSection(headers, fromValue, toValue);
    }

    /** setUniqueArguments: replace the `unique_args` component wholesale. */
    method SetUniqueArguments(keyValuePairs: map<string, string>)
      modifies this`headers
      ensures headers == old(headers).(uniqueArgs := Some(keyValuePairs))
    {
      headers := headers.(uniqueArgs := Some(keyValuePairs));
    }

    method AddUniqueArgument(key: string, value: string)
      modifies this`headers
      ensures headers == Headers.PutUniqueArgument(old(headers), key, value)
    {
      headers := Headers.PutUniqueArgument(headers, key, value);
    }

    /** setFilterSettings: replace the `filters` component wholesale. */
    method SetFilterSettings(filterSettings: map<string, Headers.Filter>)
      modifies this`headers
      ensures headers == old(headers).(filters := Some(filterSettings))
    {
      headers := headers.(filters := Some(filterSettings));
    }

    method AddFilterSetting(filterName: string, parameterName: string, parameterValue: string)
      modifies this`headers
      ensures headers == Headers.PutFilterSetting(old(headers), filterName, parameterName, parameterValue)
    {
      headers := Headers.PutFilterSetting(headers, filterName, parameterName, parameterValue);
    }

    /** setHeaders: replace the whole header bag. */
    method SetHeaders(keyValuePairs: Headers.HeaderBag)
      modifies this`headers
      ensures headers == keyValuePairs
    {
      headers := keyValuePairs;
    }

    /** The parameter map prepMessageData returns for the current state. */
    function Params(render: Headers.HeaderBag -> string): map<Field, Option<string>>
      reads this
    {
      ParamMap(username, password, subject, html, fromName, text, from, replyTo, UseHeaders(bccs, useHeaders),
               Escaped(render(Headers.WithRecipients(headers, toList))), toList, toNames)
    }

    /** The body send would build from the current state, visiting the keys in `order`. */
    function PendingBody(order: seq<Field>, enc: string -> string, render: Headers.HeaderBag -> string): Option<string>
      reads this
    {
      Body(Params(render), order, toList, toNames, useHeaders, enc)
    }

    /** prepMessageData: the parameter map; in header mode `to` is also written into the header bag. */
    method PrepMessageData(render: Headers.HeaderBag -> string) returns (data: map<Field, Option<string>>)
      modifies this`headers
      ensures data == old(Params(render))
      ensures headers == if useHeaders then Headers.WithRecipients(old(headers), toList) else old(headers)
    {
      ghost var base := BaseParams(username, password, subject, html, fromName, text, from, replyTo);
      ghost var expected := Params(render);
      var params: map<Field, Option<string>> := map[];
      params := params[ApiUser := Some(username)];
      params := params[ApiKey := Some(password)];
      params := params[Subject := subject];
      if html.Some? {
        params := params[Html := html];
      }
      if fromName.Some? {
        params := params[FromName := fromName];
      }
      params := params[Text := text];
      params := params[From := from];
      if replyTo.Some? {
        params := params[ReplyTo := replyTo];
      }
      assert params == base;
      if UseHeaders(bccs, useHeaders) {
        var h := headers;
        params := params[To := from];
        h := h.(to := Some(toList));
        headers := h;
        assert headers == Headers.WithRecipients(old(headers), toList);
        var sidecar := EscapeUnicode(render(headers));
        params := params[XSmtpApi := Some(sidecar)];
        assert params == base[To := from][XSmtpApi := Some(sidecar)];
        assert params == expected;
      } else {
        params := params[To := Some(ListToString(toList))];
        if |toNames| > 0 {
          params := params[ToName := Some(ListToString(toNames))];
        }
        assert params == expected;
      }
      data := params;
    }

    /** The first half of send: the parameter map, the body built from it and the URL to post to. */
    method BuildRequest(order: seq<Field>, enc: string -> string, render: Headers.HeaderBag -> string)
      returns (request: string, body: Option<string>)
      modifies this`headers
      ensures headers == if useHeaders then Headers.WithRecipients(old(headers), toList) else old(headers)
      ensures body == old(PendingBody(order, enc, render))
      ensures request == RequestUrl(DOMAIN + ENDPOINT, bccs, enc)
    {
      ghost var pending := PendingBody(order, enc, render);
      var data := PrepMessageData(render);
      body := AssembleBody(data, order, toList, toNames, UseHeaders(bccs, useHeaders), enc);
      assert body == pending;
      request := DOMAIN + ENDPOINT;
      if |bccs| > 0 {
        var part := ArrayToUrlPart(bccs, "bcc", enc);
        request := request + "?" + part[1..];
      }
    }

    /**
     * send(WarningListener): build the parameters, the body and the URL, then
     * classify the transport's answer. A null value reaching URLEncoder.encode
     * throws before anything is posted.
     */
    method Send(order: seq<Field>, enc: string -> string, render: Headers.HeaderBag -> string, transport: Transport)
      returns (outcome: SendOutcome)
      requires IsEnumeration(order, Params(render).Keys)
      modifies this`headers, this`serverResponse
      ensures headers == if useHeaders then Headers.WithRecipients(old(headers), toList) else old(headers)
      ensures old(PendingBody(order, enc, render)).None? ==>
        outcome == NullPointerThrown && serverResponse == old(serverResponse)
      ensures old(PendingBody(order, enc, render)).Some? ==>
        && outcome == Posted(RequestUrl(DOMAIN + ENDPOINT, bccs, enc), old(PendingBody(order, enc, render)).value,
                             Classify(old(serverResponse), transport).warning)
        && serverResponse == Classify(old(serverResponse), transport).response
    {
      var request, body := BuildRequest(order, enc, render);
      if body.None? {
        return NullPointerThrown;
      }
      var response, warning := Answer(serverResponse, transport);
      serverResponse := response;
      outcome := Posted(request, body.value, warning);
    }

    /** send(): send with the listener that stores each warning in serverResponse. */
    method SendWithDefaultListener(order: seq<Field>, enc: string -> string, render: Headers.HeaderBag -> string,
                                   transport: Transport)
      returns (outcome: SendOutcome)
      requires IsEnumeration(order, Params(render).Keys)
      modifies this`headers, this`serverResponse
      ensures headers == if useHeaders then Headers.WithRecipients(old(headers), toList) else old(headers)
      ensures old(PendingBody(order, enc, render)).None? ==>
        outcome == NullPointerThrown && serverResponse == old(serverResponse)
      ensures old(PendingBody(order, enc, render)).Some? ==>
        && outcome.Posted? && outcome.body == old(PendingBody(order, enc, render)).value
        && serverResponse == match transport
             case Response(status, errors) =>
               if status == HTTP_OK then "success" else old(serverResponse) + Join(errors, ", ")
             case MalformedUrl(_) => "Malformed URL Exception"
             case IoFailure(_) => "IO Exception"
    {
      outcome := Send(order, enc, render, transport);
      if outcome.Posted? && outcome.warning.Some? {
        serverResponse := outcome.warning.value;
      }
    }
  }

  // ---------------------------------------------------------------------------
  // Properties of the builder

  /** In header mode the sidecar field is pure ASCII, whatever the header bag holds. */
  lemma SidecarIsAscii(s: Sendgrid, render: Headers.HeaderBag -> string)
    requires s.useHeaders
    ensures XSmtpApi in s.Params(render)
    ensures IsAscii(s.Params(render)[XSmtpApi].value)
  {
    EscapedIsAscii(render(Headers.WithRecipients(s.headers, s.toList)));
  }

  /** setBcc in header mode leaves `filters.bcc.settings` with enable = "1" and email = the address. */
  lemma BccFilterRegistered(h: Headers.HeaderBag, email: string)
    ensures var r := Headers.PutFilterSetting(Headers.PutFilterSetting(h, "bcc", "enable", "1"), "bcc", "email", email);
      && Headers.Setting(r, "bcc", "enable") == Some("1")
      && Headers.Setting(r, "bcc", "email") == Some(email)
      && (forall n, p :: n != "bcc" || (p != "enable" && p != "email") ==> Headers.Setting(r, n, p) == Headers.Setting(h, n, p))
      && r == h.(filters := r.filters)
  {
  }

  /**
   * Whether the send loop passes the value stored under `key` to
   * URLEncoder.encode: every key except `to` in non-header mode and
   * `toname`, whenever their lists are non-empty.
   */
  predicate EncodesValue(key: Field, tos: seq<string>, toNames: seq<string>, headerMode: bool) {
    !(key == To && |tos| > 0 && !headerMode) && !(key == ToName && |toNames| > 0)
  }

  /**
   * Whatever order the HashMap yields its keys in, the loop builds a body
   * exactly when no value it encodes is null.
   */
  lemma BodyDefinedIffValues(data: map<Field, Option<string>>, order: seq<Field>, tos: seq<string>,
                             toNames: seq<string>, headerMode: bool, enc: string -> string)
    requires IsEnumeration(order, data.Keys)
    ensures Body(data, order, tos, toNames, headerMode, enc).Some? <==>
      forall k :: k in data && EncodesValue(k, tos, toNames, headerMode) ==> data[k].Some?
  {
    var seg := SegmentOf(data, tos, toNames, headerMode, enc);
    ConcatNoneIff(order, seg);
    if forall k :: k in data && EncodesValue(k, tos, toNames, headerMode) ==> data[k].Some? {
      forall i | 0 <= i < |order| ensures seg(order[i]).Some? {
        assert seg(order[i]) == Segment(data, order[i], tos, toNames, headerMode, enc);
      }
    } else {
      var k :| k in data && EncodesValue(k, tos, toNames, headerMode) && data[k].None?;
      assert seg(k) == Segment(data, k, tos, toNames, headerMode, enc);
      ConcatNoneAt(order, seg, k);
    }
  }

  /**
   * Whatever order the HashMap yields its keys in, send posts something
   * exactly when subject, text and from are all set; otherwise
   * URLEncoder.encode receives null and throws.
   */
  lemma BodyDefinedIff(s: Sendgrid, order: seq<Field>, enc: string -> string, render: Headers.HeaderBag -> string)
    requires IsEnumeration(order, s.Params(render).Keys)
    ensures s.PendingBody(order, enc, render).Some? <==> s.subject.Some? && s.text.Some? && s.from.Some?
  {
    var data := s.Params(render);
    BodyDefinedIffValues(data, order, s.toList, s.toNames, s.useHeaders, enc);
    assert EncodesValue(Subject, s.toList, s.toNames, s.useHeaders);
    assert EncodesValue(Text, s.toList, s.toNames, s.useHeaders);
    assert EncodesValue(From, s.toList, s.toNames, s.useHeaders);
  }

  /** In non-header mode the `to` field becomes the recipients in array form, followed by `&`. */
  lemma ToFieldWithoutHeaders(data: map<Field, Option<string>>, tos: seq<string>, toNames: seq<string>,
                              enc: string -> string)
    requires tos != []
    ensures Segment(data, To, tos, toNames, false, enc)
      == Some("&to[]=" + enc(tos[0]) + UrlPart(tos[1..], "to", enc) + "&")
  {
    assert tos == [tos[0]] + tos[1..];
    UrlPartCons(tos[0], tos[1..], "to", enc);
    var rest := UrlPart(tos[1..], "to", enc);
    assert Piece("to", tos[0], enc) == "&to[]=" + enc(tos[0]);
    assert UrlPart(tos, "to", enc) + "&" == "&to[]=" + enc(tos[0]) + rest + "&";
  }

  /**
   * In header mode with recipients, the `to` field of the body carries the
   * sender's address once, and the recipients travel in the sidecar's `to`.
   */
  lemma ToFieldWithHeaders(s: Sendgrid, enc: string -> string, render: Headers.HeaderBag -> string)
    requires s.useHeaders && s.toList != [] && s.from.Some?
    ensures Segment(s.Params(render), To, s.toList, s.toNames, true, enc) == Some("to=" + enc(s.from.value) + "&")
    ensures XSmtpApi in s.Params(render)
      && s.Params(render)[XSmtpApi] == Some(Escaped(render(Headers.WithRecipients(s.headers, s.toList))))
  {
  }

  /** Without a sender, header mode with recipients throws on the `to` field. */
  lemma ToFieldWithHeadersNoSender(s: Sendgrid, enc: string -> string, render: Headers.HeaderBag -> string)
    requires s.useHeaders && s.toList != [] && s.from.None?
    ensures Segment(s.Params(render), To, s.toList, s.toNames, true, enc).None?
  {
  }

  /** The `toname` field drops the leading `&` of its array form. */
  lemma ToNameField(data: map<Field, Option<string>>, tos: seq<string>, toNames: seq<string>, headerMode: bool,
                    enc: string -> string)
    requires toNames != []
    ensures Segment(data, ToName, tos, toNames, headerMode, enc)
      == Some("toname[]=" + enc(toNames[0]) + UrlPart(toNames[1..], "toname", enc) + "&")
  {
    UrlPartWithoutLeadingAmpersand(toNames, "toname", enc);
    var rest := UrlPart(toNames[1..], "toname", enc);
    assert "toname" + "[]=" + enc(toNames[0]) == "toname[]=" + enc(toNames[0]);
    assert UrlPart(toNames, "toname", enc)[1..] + "&" == "toname[]=" + enc(toNames[0]) + rest + "&";
  }

  /** A field in the body occupies its own segment, between those of the keys before and after it. */
  lemma BodySegment(data: map<Field, Option<string>>, before: seq<Field>, key: Field, after: seq<Field>,
                    tos: seq<string>, toNames: seq<string>, headerMode: bool, enc: string -> string)
    ensures Body(data, before + [key] + after, tos, toNames, headerMode, enc)
      == Then(Then(Body(data, before, tos, toNames, headerMode, enc), Segment(data, key, tos, toNames, headerMode, enc)),
              Body(data, after, tos, toNames, headerMode, enc))
  {
    var seg := SegmentOf(data, tos, toNames, headerMode, enc);
    ConcatAppend(before + [key], after, seg);
    ConcatAppend(before, [key], seg);
    ConcatSingle(key, seg);
  }

  /**
   * A fresh builder with from, one recipient, subject and text, in header mode
   * and without bcc: `to` carries the sender and the sidecar holds both
   * library categories and the recipient.
   */
  method StructuredScenario(render: Headers.HeaderBag -> string)
    returns (data: map<Field, Option<string>>, sidecar: Headers.HeaderBag)
    ensures sidecar == Headers.Empty.(category := Some([CATEGORY, CATEGORY]), to := Some(["b@x.com"]))
    ensures To in data && data[To] == Some("a@x.com")
    ensures XSmtpApi in data && data[XSmtpApi] == Some(Escaped(render(sidecar)))
    ensures ToName !in data && Html !in data
  {
    var s := new Sendgrid("user", "key");
    s.SetFrom("a@x.com");
    s.SetTo("b@x.com");
    s.SetSubject("S");
    s.SetText("T");
    assert s.useHeaders && s.html.None? && s.toList == ["b@x.com"];
    assert s.headers == Headers.Empty.(category := Some([CATEGORY, CATEGORY]));
    ghost var expected := Headers.WithRecipients(s.headers, s.toList);
    data := s.PrepMessageData(render);
    sidecar := s.headers;
    assert sidecar == expected;
  }

  /**
   * A fresh builder whose post is answered with an error: serverResponse is
   * exactly the single error text; a 200 answer gives "success". This holds
   * whatever order the HashMap yields the seven parameter names in.
   */
  method ErrorResponseScenario(order: seq<Field>, enc: string -> string, render: Headers.HeaderBag -> string,
                               status: int)
    returns (response: string)
    requires IsEnumeration(order, {ApiUser, ApiKey, Subject, Text, From, To, XSmtpApi})
    ensures status == HTTP_OK ==> response == "success"
    ensures status != HTTP_OK ==> response == "invalid from"
  {
    var s := PlainMessage();
    HeaderModeKeys(s, render);
    BodyDefinedIff(s, order, enc, render);
    assert Join(["invalid from"], ", ") == "invalid from";
    assert "" + "invalid from" == "invalid from";
    var outcome := s.SendWithDefaultListener(order, enc, render, Response(status, ["invalid from"]));
    response := s.serverResponse;
  }

  /** A fresh builder given a sender, one recipient, a subject and a text, and nothing else. */
  method PlainMessage() returns (s: Sendgrid)
    ensures fresh(s)
    ensures s.useHeaders && s.html.None? && s.fromName.None? && s.replyTo.None?
    ensures s.subject.Some? && s.text.Some? && s.from.Some? && s.serverResponse == ""
  {
    s := new Sendgrid("user", "key");
    s.SetFrom("a@x.com");
    s.SetTo("b@x.com");
    s.SetSubject("S");
    s.SetText("T");
  }

  /** In header mode, with no html, sender name or reply-to set, these are the parameter names. */
  lemma HeaderModeKeys(s: Sendgrid, render: Headers.HeaderBag -> string)
    requires s.useHeaders && s.html.None? && s.fromName.None? && s.replyTo.None?
    ensures s.Params(render).Keys == {ApiUser, ApiKey, Subject, Text, From, To, XSmtpApi}
  {
  }
}
