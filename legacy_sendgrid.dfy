/**
 * The legacy mail builder (package googleSendgridJava): the same builder
 * before the rewrite, with no display names, no library category, no
 * escaping of the `x-smtpapi` field, an `html` field that is always sent,
 * and a send that stores the transport's answer in `message`.
 *
 * URLEncoder.encode is the parameter `enc` and JSONObject.toString the
 * parameter `render`; the transport's answer is the parameter `transport`.
 */
module LegacySendgrid {
  import opened JavaLib
  import opened Wire
  import Headers

  const DOMAIN: string := "http://sendgrid.com/"
  const ENDPOINT: string := "api/mail.send.json"

  /**
   * The parameter map of _prepMessageData, given the builder's fields, the
   * header-mode decision and the rendering of the header bag (used in header
   * mode only). Subject, html, text and from are always present and may be
   * null, and so may `to`, which is from in header mode.
   */
  function ParamMap(username: string, password: string, subject: Option<string>, html: Option<string>,
                    text: Option<string>, from: Option<string>, replyTo: Option<string>,
                    headerMode: bool, sidecar: string, toList: seq<string>)
    : (m: map<Field, Option<string>>)
    ensures ApiUser in m && m[ApiUser] == Some(username)
    ensures ApiKey in m && m[ApiKey] == Some(password)
    ensures Subject in m && m[Subject] == subject
    ensures Html in m && m[Html] == html
    ensures Text in m && m[Text] == text
    ensures From in m && m[From] == from
    ensures (ReplyTo in m <==> replyTo.Some?) && (ReplyTo in m ==> m[ReplyTo] == replyTo)
    ensures To in m && FromName !in m && ToName !in m
    ensures headerMode ==> m[To] == from && XSmtpApi in m && m[XSmtpApi] == Some(sidecar)
    ensures !headerMode ==> m[To] == Some(ListToString(toList)) && XSmtpApi !in m
    ensures forall k :: k in m && m[k].None? ==> k == Subject || k == Html || k == Text || k == From || k == To
  {
    var m0 := map[ApiUser := Some(username), ApiKey := Some(password), Subject := subject, Html := html];
    var m1 := m0[Text := text][From := from];
    var m2 := if replyTo.Some? then m1[ReplyTo := replyTo] else m1;
    if headerMode then m2[To := from][XSmtpApi := Some(sidecar)] else m2[To := Some(ListToString(toList))]
  }

  /**
   * What one iteration of the send loop appends for `key`: the recipients in
   * array form for `to` whenever there are any, in either mode; None when a
   * null value reaches URLEncoder.encode, which throws.
   */
  function Segment(data: map<Field, Option<string>>, key: Field, tos: seq<string>, enc: string -> string)
    : (r: Option<string>)
    ensures r.None? <==> EncodesValue(key, tos) && Lookup(data, key).None?
    ensures r.Some? ==> |r.value| > 0 && r.value[|r.value| - 1] == '&'
  {
    var value := Lookup(data, key);
    if key == To && |tos| > 0 then
      Some(UrlPart(tos, "to", enc) + "&")
    else if value.Some? then
      Some(enc(Name(key)) + "=" + enc(value.value) + "&")
    else
      None
  }

  function SegmentOf(data: map<Field, Option<string>>, tos: seq<string>, enc: string -> string)
    : Field -> Option<string>
  {
    key => Segment(data, key, tos, enc)
  }

  /** The request body for the keys visited in `order`. */
  function Body(data: map<Field, Option<string>>, order: seq<Field>, tos: seq<string>, enc: string -> string)
    : Option<string>
  {
    Concat(order, SegmentOf(data, tos, enc))
  }

  /** The loop of send that builds the request body from the parameter map. */
  method AssembleBody(data: map<Field, Option<string>>, order: seq<Field>, tos: seq<string>, enc: string -> string)
    returns (body: Option<string>)
    ensures body == Body(data, order, tos, enc)
  {
    ghost var seg := SegmentOf(data, tos, enc);
    var sb := "";
    var i := 0;
    while i < |order|
      invariant 0 <= i <= |order|
      invariant Concat(order[..i], seg) == Some(sb)
    {
      var key := order[i];
      var value := Lookup(data, key);
      assert order[..i + 1][..i] == order[..i];
      var piece: string;
      if key == To && |tos| > 0 {
        var part := ArrayToUrlPart(tos, "to", enc);
        piece := part + "&";
      } else {
        if value.None? {
          ConcatNoneIff(order, seg);
          return None;
        }
        piece := enc(Name(key)) + "=" + enc(value.value) + "&";
      }
      assert seg(key) == Some(piece);
      sb := sb + piece;
      i := i + 1;
    }
    assert order[..|order|] == order;
    body := Some(sb);
  }

  /** The new `message` after the transport's answer, given the previous one. */
  function Classify(previous: string, transport: Transport): (r: string)
    ensures transport.Response? && transport.status == HTTP_OK ==> r == "success"
    ensures transport.Response? && transport.status != HTTP_OK ==> r == previous + Join(transport.errors, ", ")
    ensures transport.MalformedUrl? ==> r == "MalformedURLException - " + transport.message
    ensures transport.IoFailure? ==> r == "IOException - " + transport.message
  {
    match transport
    case Response(status, errors) => if status == HTTP_OK then "success" else previous + Join(errors, ", ")
    case MalformedUrl(msg) => "MalformedURLException - " + msg
    case IoFailure(msg) => "IOException - " + msg
  }

  /**
   * The branch of send that reads the transport's answer: "success" on
   * HTTP_OK, otherwise the `errors` array appended to the previous message;
   * an exception replaces the message with its name and text.
   */
  method Answer(previous: string, transport: Transport) returns (r: string)
    ensures r == Classify(previous, transport)
  {
    match transport {
      case Response(status, errors) =>
        if status == HTTP_OK {
          r := "success";
        } else {
          r := AppendErrors(previous, errors);
        }
      case MalformedUrl(msg) =>
        r := "MalformedURLException - " + msg;
      case IoFailure(msg) =>
        r := "IOException - " + msg;
    }
  }

  /** What send does: the NullPointerException that escapes it, or what it posted. */
  datatype Outcome =
    | NullPointerThrown
    | Posted(url: string, body: string)

  // ---------------------------------------------------------------------------
  // The builder

  class Sendgrid {
    var useHeaders: bool
    var username: string
    var password: string
    var from: Option<string>
    var replyTo: Option<string>
    var subject: Option<string>
    var text: Option<string>
    var html: Option<string>
    var message: string
    var toList: seq<string>
    var bccs: seq<string>
    var headers: Headers.HeaderBag

    /** A fresh builder: only the credentials are set, headers are on and the header bag is empty. */
    constructor (username: string, password: string)
      ensures this.username == username && this.password == password
      ensures useHeaders && message == ""
      ensures from == replyTo == subject == text == html == None
      ensures toList == [] && bccs == []
      ensures headers == Headers.Empty
    {
      this.username := username;
      this.password := password;
      useHeaders := true;
      from, replyTo, subject, text, html := None, None, None, None, None;
      message := "";
      toList, bccs := [], [];
      headers := Headers.Empty;
    }

    /** setTo: the recipient list becomes the single email. */
    method SetTo(email: string)
      modifies this`toList
      ensures toList == [email]
    {
      toList := [email];
    }

    /** addTo(email, name): the composite address is appended, in either mode. */
    method AddTo(email: string, name: string)
      modifies this`toList
      ensures toList == old(toList) + [ToAddress(email, name)]
    {
      var toAddress := if |name| > 0 then name + "<" + email + ">" else email;
      toList := toList + [toAddress];
    }

    /** addTo(email): addTo with an empty name, so the bare email. */
    method AddToEmail(email: string)
      modifies this`toList
      ensures toList == old(toList) + [email]
    {
      AddTo(email, "");
    }

    method SetFrom(email: string)
      modifies this`from
      ensures from == Some(email)
    {
      from := Some(email);
    }

    method SetReplyTo(email: string)
      modifies this`replyTo
      ensures replyTo == Some(email)
    {
      replyTo := Some(email);
    }

    /** setBcc: the bcc list becomes the single email; the header bag is untouched. */
    method SetBcc(email: string)
      modifies this`bccs
      ensures bccs == [email]
    {
      bccs := [email];
    }

    /** addBcc: append to a non-empty list, else behave as setBcc; either way one email more. */
    method AddBcc(email: string)
      modifies this`bccs
      ensures bccs == old(bccs) + [email]
    {
      if |bccs| > 0 {
        bccs := bccs + [email];
      } else {
        SetBcc(email);
      }
    }

    method SetSubject(subject: string)
      modifies this`subject
      ensures this.subject == Some(subject)
    {
      this.subject := Some(subject);
    }

    method SetText(text: string)
      modifies this`text
      ensures this.text == Some(text)
    {
      this.text := Some(text);
    }

    method SetHtml(html: string)
      modifies this`html
      ensures this.html == Some(html)
    {
      this.html := Some(html);
    }

    /** setCategories: the category list becomes the given list. */
    method SetCategories(categoryList: seq<string>)
      modifies this`headers
      ensures headers == old(headers).(category := Some(categoryList))
    {
      headers := headers.(category := Some(categoryList));
    }

    /** setCategory: the category list becomes the single category. */
    method SetCategory(category: string)
      modifies this`headers
      ensures headers == old(headers).(category := Some([category]))
    {
      headers := headers.(category := Some([category]));
    }

    /** addCategory: append to an existing list, else behave as setCategory. */
    method AddCategory(category: string)
      modifies this`headers
      ensures old(headers).category.Some? ==>
        headers == old(headers).(category := Some(old(headers).category.value + [category]))
      ensures old(headers).category.None? ==> headers == old(headers).(category := Some([category]))
    {
      if headers.category.Some? {
        headers := headers.(category := Some(headers.category.value + [category]));
      } else {
        SetCategory(category);
      }
    }

    method SetSubstitutions(keyValuePairs: map<string, seq<string>>)
      modifies this`headers
      ensures headers == old(headers).(sub := Some(keyValuePairs))
    {
      headers := headers.(sub := Some(keyValuePairs));
    }

    method AddSubstitution(fromValue: string, toValues: seq<string>)
      modifies this`headers
      ensures headers == Headers.PutSubstitution(old(headers), fromValue, toValues)
    {
      headers := Headers.PutSubstitution(headers, fromValue, toValues);
    }

    method SetSections(keyValuePairs: map<string, string>)
      modifies this`headers
      ensures headers == old(headers).(section := Some(keyValuePairs))
    {
      headers := headers.(section := Some(keyValuePairs));
    }

    method AddSection(fromValue: string, toValue: string)
      modifies this`headers
      ensures headers == Headers.PutSection(old(headers), fromValue, toValue)
    {
      headers := Headers.PutSection(headers, fromValue, toValue);
    }

    method SetUniqueArguments(keyValuePairs: map<string, string>)
      modifies this`headers
      ensures headers == old(headers).(uniqueArgs := Some(keyValuePairs))
    {
      headers := headers.(uniqueArgs := Some(keyValuePairs));
    }

    method AddUniqueArgument(key: string, value: string)
      modifies this`headers
      ensures headers == Headers.PutUniqueArgument(old(headers), key, value)
    {
      headers := Headers.PutUniqueArgument(headers, key, value);
    }

    method SetFilterSettings(filterSettings: map<string, Headers.Filter>)
      modifies this`headers
      ensures headers == old(headers).(filters := Some(filterSettings))
    {
      headers := headers.(filters := Some(filterSettings));
    }

    method AddFilterSetting(filterName: string, parameterName: string, parameterValue: string)
      modifies this`headers
      ensures headers == Headers.PutFilterSetting(old(headers), filterName, parameterName, parameterValue)
    {
      headers := Headers.PutFilterSetting(headers, filterName, parameterName, parameterValue);
    }

    method SetHeaders(keyValuePairs: Headers.HeaderBag)
      modifies this`headers
      ensures headers == keyValuePairs
    {
      headers := keyValuePairs;
    }

    /** The parameter map _prepMessageData returns for the current state. */
    function Params(render: Headers.HeaderBag -> string): map<Field, Option<string>>
      reads this
    {
      ParamMap(username, password, subject, html, text, from, replyTo, UseHeaders(bccs, useHeaders),
               render(Headers.WithRecipients(headers, toList)), toList)
    }

    /** The body send would build from the current state, visiting the keys in `order`. */
    function PendingBody(order: seq<Field>, enc: string -> string, render: Headers.HeaderBag -> string): Option<string>
      reads this
    {
      Body(Params(render), order, toList, enc)
    }

    /** _prepMessageData: the parameter map; in header mode `to` is also written into the header bag. */
    method PrepMessageData(render: Headers.HeaderBag -> string) returns (data: map<Field, Option<string>>)
      modifies this`headers
      ensures data == old(Params(render))
      ensures headers == if useHeaders then Headers.WithRecipients(old(headers), toList) else old(headers)
    {
      var params: map<Field, Option<string>> := map[];
      params := params[ApiUser := Some(username)];
      params := params[ApiKey := Some(password)];
      params := params[Subject := subject];
      params := params[Html := html];
      params := params[Text := text];
      params := params[From := from];
      if replyTo.Some? {
        params := params[ReplyTo := replyTo];
      }
      if UseHeaders(bccs, useHeaders) {
        var h := headers;
        params := params[To := from];
        h := h.(to := Some(toList));
        headers := h;
        params := params[XSmtpApi := Some(render(headers))];
      } else {
        params := params[To := Some(ListToString(toList))];
      }
      data := params;
    }

    /** The first half of send: the parameter map, the body built from it and the URL to post to. */
    method BuildRequest(order: seq<Field>, enc: string -> string, render: Headers.HeaderBag -> string)
      returns (request: string, body: Option<string>)
      modifies this`headers
      ensures headers == if useHeaders then Headers.WithRecipients(old(headers), toList) else old(headers)
      ensures body == old(PendingBody(order, enc, render))
      ensures request == RequestUrl(DOMAIN + ENDPOINT, bccs, enc)
    {
      ghost var pending := PendingBody(order, enc, render);
      var data := PrepMessageData(render);
      body := AssembleBody(data, order, toList, enc);
      assert body == pending;
      request := DOMAIN + ENDPOINT;
      if |bccs| > 0 {
        var part := ArrayToUrlPart(bccs, "bcc", enc);
        request := request + "?" + part[1..];
      }
    }

    /**
     * send: build the parameters, the body and the URL, then store the
     * classification of the transport's answer in `message`. A null value
     * reaching URLEncoder.encode throws before anything is posted.
     */
    method Send(order: seq<Field>, enc: string -> string, render: Headers.HeaderBag -> string, transport: Transport)
      returns (outcome: Outcome)
      requires IsEnumeration(order, Params(render).Keys)
      modifies this`headers, this`message
      ensures headers == if useHeaders then Headers.WithRecipients(old(headers), toList) else old(headers)
      ensures old(PendingBody(order, enc, render)).None? ==> outcome == NullPointerThrown && message == old(message)
      ensures old(PendingBody(order, enc, render)).Some? ==>
        && outcome == Posted(RequestUrl(DOMAIN + ENDPOINT, bccs, enc), old(PendingBody(order, enc, render)).value)
        && message == Classify(old(message), transport)
    {
      var request, body := BuildRequest(order, enc, render);
      if body.None? {
        return NullPointerThrown;
      }
      message := Answer(message, transport);
      outcome := Posted(request, body.value);
    }
  }

  // ---------------------------------------------------------------------------
  // Properties of the builder

  /** Whether the send loop passes the value stored under `key` to URLEncoder.encode. */
  predicate EncodesValue(key: Field, tos: seq<string>) {
    !(key == To && |tos| > 0)
  }

  /**
   * Whatever order the HashMap yields its keys in, the loop builds a body
   * exactly when no value it encodes is null.
   */
  lemma BodyDefinedIffValues(data: map<Field, Option<string>>, order: seq<Field>, tos: seq<string>,
                             enc: string -> string)
    requires IsEnumeration(order, data.Keys)
    ensures Body(data, order, tos, enc).Some? <==> forall k :: k in data && EncodesValue(k, tos) ==> data[k].Some?
  {
    var seg := SegmentOf(data, tos, enc);
    ConcatNoneIff(order, seg);
    if forall k :: k in data && EncodesValue(k, tos) ==> data[k].Some? {
      forall i | 0 <= i < |order| ensures seg(order[i]).Some? {
        assert seg(order[i]) == Segment(data, order[i], tos, enc);
      }
    } else {
      var k :| k in data && EncodesValue(k, tos) && data[k].None?;
      assert seg(k) == Segment(data, k, tos, enc);
      ConcatNoneAt(order, seg, k);
    }
  }

  /**
   * Whatever order the HashMap yields its keys in, send posts something
   * exactly when subject, html, text and from are all set; otherwise
   * URLEncoder.encode receives null and throws.
   */
  lemma BodyDefinedIff(s: Sendgrid, order: seq<Field>, enc: string -> string, render: Headers.HeaderBag -> string)
    requires IsEnumeration(order, s.Params(render).Keys)
    ensures s.PendingBody(order, enc, render).Some? <==>
      s.subject.Some? && s.html.Some? && s.text.Some? && s.from.Some?
  {
    var data := s.Params(render);
    BodyDefinedIffValues(data, order, s.toList, enc);
    assert EncodesValue(Subject, s.toList) && EncodesValue(Html, s.toList);
    assert EncodesValue(Text, s.toList) && EncodesValue(From, s.toList);
  }

  /**
   * With recipients, the `to` field is always their array form, whatever the
   * map holds under `to`: in header mode the recipients are posted in the
   * clear even though the map holds the sender there.
   */
  lemma ToFieldIsRecipients(data: map<Field, Option<string>>, tos: seq<string>, enc: string -> string)
    requires tos != []
    ensures Segment(data, To, tos, enc) == Some("&to[]=" + enc(tos[0]) + UrlPart(tos[1..], "to", enc) + "&")
  {
    assert tos == [tos[0]] + tos[1..];
    UrlPartCons(tos[0], tos[1..], "to", enc);
    var rest := UrlPart(tos[1..], "to", enc);
    assert Piece("to", tos[0], enc) == "&to[]=" + enc(tos[0]);
    assert UrlPart(tos, "to", enc) + "&" == "&to[]=" + enc(tos[0]) + rest + "&";
  }

  /** In header mode the sidecar field is the rendering itself, with no escaping. */
  lemma SidecarIsRendering(s: Sendgrid, render: Headers.HeaderBag -> string)
    requires s.useHeaders
    ensures XSmtpApi in s.Params(render)
    ensures s.Params(render)[XSmtpApi] == Some(render(Headers.WithRecipients(s.headers, s.toList)))
  {
  }

  /** An error status never resets `message`: the errors of two non-200 answers run together with no separator. */
  lemma ErrorsAccumulate(previous: string, first: seq<string>, second: seq<string>, status1: int, status2: int)
    requires status1 != HTTP_OK && status2 != HTTP_OK
    ensures Classify(Classify(previous, Response(status1, first)), Response(status2, second))
      == previous + Join(first, ", ") + Join(second, ", ")
  {
  }

  /**
   * A fresh builder carries no category at all, and addCategory on it
   * yields exactly the one category added.
   */
  method CategoryScenario(category: string) returns (categories: Option<seq<string>>)
    ensures categories == Some([category])
  {
    var s := new Sendgrid("user", "key");
    s.AddCategory(category);
    categories := s.headers.category;
  }
}
