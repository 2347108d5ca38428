/**
 * What both copies of the builder share: the names of the request
 * parameters, the repeated `&token[]=value` list encoding, the concatenation
 * of the per-field segments of a form body, the outcome of the HTTP
 * exchange, the header-mode decision and the loops both copies contain.
 */
module Wire {
  import opened JavaLib

  /** The names of the request parameters. */
  datatype Field = ApiUser | ApiKey | Subject | Html | FromName | Text | From | ReplyTo | To | ToName | XSmtpApi

  /** The form name of each parameter. */
  function Name(f: Field): string {
    match f
    case ApiUser => "api_user"
    case ApiKey => "api_key"
    case Subject => "subject"
    case Html => "html"
    case FromName => "fromname"
    case Text => "text"
    case From => "from"
    case ReplyTo => "replyto"
    case To => "to"
    case ToName => "toname"
    case XSmtpApi => "x-smtpapi"
  }

  /** The status HttpURLConnection.HTTP_OK. */
  const HTTP_OK: int := 200

  /**
   * What the transport reported: a status with the `errors` array of the
   * response body, or the exception raised before a status was read.
   */
  datatype Transport =
    | Response(status: int, errors: seq<string>)
    | MalformedUrl(message: string)
    | IoFailure(message: string)

  /** One list element in array form: `&token[]=` followed by the encoded element. */
  function Piece(token: string, x: string, enc: string -> string): string {
    "&" + token + "[]=" + enc(x)
  }

  /** The text arrayToUrlPart builds: one Piece per element, in list order. */
  function UrlPart(xs: seq<string>, token: string, enc: string -> string): (r: string)
    ensures r == [] <==> xs == []
    ensures xs != [] ==> r[0] == '&'
    decreases |xs|
  {
    if xs == [] then [] else UrlPart(xs[..|xs| - 1], token, enc) + Piece(token, xs[|xs| - 1], enc)
  }

  /** UrlPart read from the front: the first element's piece, then the rest. */
  lemma {:induction false} UrlPartCons(x: string, xs: seq<string>, token: string, enc: string -> string)
    ensures UrlPart([x] + xs, token, enc) == Piece(token, x, enc) + UrlPart(xs, token, enc)
    decreases |xs|
  {
    var ys := [x] + xs;
    if xs == [] {
      assert ys[..0] == [];
    } else {
      var init, last := xs[..|xs| - 1], xs[|xs| - 1];
      assert ys[..|ys| - 1] == [x] + init;
      assert ys[|ys| - 1] == last;
      UrlPartCons(x, init, token, enc);
      var p, q := Piece(token, x, enc), Piece(token, last, enc);
      assert UrlPart(ys, token, enc) == p + UrlPart(init, token, enc) + q;
      assert UrlPart(xs, token, enc) == UrlPart(init, token, enc) + q;
    }
  }

  /** UrlPart of a concatenation is the concatenation of the UrlParts. */
  lemma {:induction false} UrlPartAppend(xs: seq<string>, ys: seq<string>, token: string, enc: string -> string)
    ensures UrlPart(xs + ys, token, enc) == UrlPart(xs, token, enc) + UrlPart(ys, token, enc)
    decreases |ys|
  {
    if ys == [] {
      assert xs + ys == xs;
    } else {
      var zs, init := xs + ys, ys[..|ys| - 1];
      assert zs[..|zs| - 1] == xs + init;
      assert zs[|zs| - 1] == ys[|ys| - 1];
      UrlPartAppend(xs, init, token, enc);
      var p := Piece(token, ys[|ys| - 1], enc);
      assert UrlPart(zs, token, enc) == UrlPart(xs + init, token, enc) + p;
      assert UrlPart(ys, token, enc) == UrlPart(init, token, enc) + p;
    }
  }

  /**
   * Dropping the first character of a non-empty UrlPart, as the bcc query
   * and the `toname` field do, leaves `token[]=` and the first element first.
   */
  lemma UrlPartWithoutLeadingAmpersand(xs: seq<string>, token: string, enc: string -> string)
    requires xs != []
    ensures UrlPart(xs, token, enc)[1..] == token + "[]=" + enc(xs[0]) + UrlPart(xs[1..], token, enc)
  {
    UrlPartFront(xs, token, enc);
    DropLeadingAmpersand(token + "[]=" + enc(xs[0]), UrlPart(xs[1..], token, enc));
  }

  lemma DropLeadingAmpersand(t: string, rest: string)
    ensures ("&" + t + rest)[1..] == t + rest
  {
    assert "&" + t + rest == "&" + (t + rest);
  }

  /** UrlPart of a non-empty list: the first element's piece, then the encoding of the rest. */
  lemma {:induction false} UrlPartFront(xs: seq<string>, token: string, enc: string -> string)
    requires xs != []
    ensures UrlPart(xs, token, enc) == Piece(token, xs[0], enc) + UrlPart(xs[1..], token, enc)
  {
    assert xs == [xs[0]] + xs[1..];
    UrlPartCons(xs[0], xs[1..], token, enc);
  }

  /** The URL a send posts to: the bcc list, when there is one, as a query string after `base`. */
  function RequestUrl(base: string, bccs: seq<string>, enc: string -> string): (r: string)
    ensures |r| >= |base| && r[..|base|] == base
    ensures |r| > |base| <==> bccs != []
    ensures bccs != [] ==> r[|base|] == '?'
  {
    if |bccs| > 0 then base + "?" + UrlPart(bccs, "bcc", enc)[1..] else base
  }

  /** The query string lists every bcc recipient as `bcc[]=`, the first without a leading `&`. */
  lemma RequestUrlShape(base: string, bccs: seq<string>, enc: string -> string)
    ensures bccs == [] ==> RequestUrl(base, bccs, enc) == base
    ensures bccs != [] ==>
      RequestUrl(base, bccs, enc) == base + "?bcc[]=" + enc(bccs[0]) + UrlPart(bccs[1..], "bcc", enc)
  {
    if bccs != [] {
      UrlPartWithoutLeadingAmpersand(bccs, "bcc", enc);
    }
  }

  /** Appending to a text that may have been abandoned on a thrown exception (None). */
  function Then(a: Option<string>, b: Option<string>): Option<string> {
    if a.Some? && b.Some? then Some(a.value + b.value) else None
  }

  /**
   * The body a send loop builds when it visits `keys` in order and appends
   * `seg(k)` for each; None when some step throws.
   */
  function Concat<K>(keys: seq<K>, seg: K -> Option<string>): Option<string>
    decreases |keys|
  {
    if keys == [] then Some("") else Then(Concat(keys[..|keys| - 1], seg), seg(keys[|keys| - 1]))
  }

  /** The loop throws exactly when the segment of one of the keys does. */
  lemma {:induction false} ConcatNoneIff<K>(keys: seq<K>, seg: K -> Option<string>)
    ensures Concat(keys, seg).None? <==> exists i :: 0 <= i < |keys| && seg(keys[i]).None?
    decreases |keys|
  {
    if keys != [] {
      var pre := keys[..|keys| - 1];
      ConcatNoneIff(pre, seg);
      if Concat(pre, seg).None? {
        var i :| 0 <= i < |pre| && seg(pre[i]).None?;
        assert keys[i] == pre[i];
      } else if seg(keys[|keys| - 1]).Some? {
        forall i | 0 <= i < |keys| ensures seg(keys[i]).Some? {
          if i < |pre| {
            assert keys[i] == pre[i];
          }
        }
      }
    }
  }

  /** A visited key whose segment throws makes the whole loop throw. */
  lemma ConcatNoneAt<K>(keys: seq<K>, seg: K -> Option<string>, k: K)
    requires k in keys && seg(k).None?
    ensures Concat(keys, seg).None?
  {
    var i :| 0 <= i < |keys| && keys[i] == k;
    ConcatNoneIff(keys, seg);
  }

  /** The body of two runs of keys is the first run's body followed by the second's. */
  lemma {:induction false} ConcatAppend<K>(a: seq<K>, b: seq<K>, seg: K -> Option<string>)
    ensures Concat(a + b, seg) == Then(Concat(a, seg), Concat(b, seg))
    decreases |b|
  {
    if b == [] {
      assert a + b == a;
      if Concat(a, seg).Some? {
        assert Concat(a, seg).value + "" == Concat(a, seg).value;
      }
    } else {
      var ab := a + b;
      assert ab[..|ab| - 1] == a + b[..|b| - 1];
      ConcatAppend(a, b[..|b| - 1], seg);
      var x, y, z := Concat(a, seg), Concat(b[..|b| - 1], seg), seg(b[|b| - 1]);
      if x.Some? && y.Some? && z.Some? {
        assert x.value + y.value + z.value == x.value + (y.value + z.value);
      }
    }
  }

  /** A single key contributes exactly its own segment. */
  lemma ConcatSingle<K>(k: K, seg: K -> Option<string>)
    ensures Concat([k], seg) == seg(k)
  {
    assert [k][..0] == [];
    if seg(k).Some? {
      assert "" + seg(k).value == seg(k).value;
    }
  }

  // ---------------------------------------------------------------------------
  // The header-mode decision, the same in both copies

  /** preferNotToUseHeaders: no bcc recipient, or headers switched off. */
  function PreferNotToUseHeaders(bccs: seq<string>, flag: bool): (r: bool)
    ensures !flag ==> r
    ensures flag ==> (r <==> bccs == [])
  {
    |bccs| == 0 || !flag
  }

  /** isHeadersRequired: the flag itself. */
  function IsHeadersRequired(flag: bool): (r: bool)
    ensures r <==> flag
  {
    flag
  }

  /** useHeaders: whatever the bcc list holds, the decision is the flag. */
  function UseHeaders(bccs: seq<string>, flag: bool): (r: bool)
    ensures r == flag
  {
    !(PreferNotToUseHeaders(bccs, flag) && !IsHeadersRequired(flag))
  }

  // ---------------------------------------------------------------------------
  // Loops and helpers both copies contain

  /** arrayToUrlPart: one `&token[]=enc(x)` per element, in order. */
  method ArrayToUrlPart(items: seq<string>, token: string, enc: string -> string) returns (s: string)
    ensures s == UrlPart(items, token, enc)
  {
    s := "";
    var i := 0;
    while i < |items|
      invariant 0 <= i <= |items|
      invariant s == UrlPart(items[..i], token, enc)
    {
      s := s + "&" + token + "[]=" + enc(items[i]);
      assert items[..i + 1][..i] == items[..i];
      i := i + 1;
    }
    assert items[..|items|] == items;
  }

  /** The loop that appends the `errors` array to the stored answer text, ", " between elements. */
  method AppendErrors(previous: string, errors: seq<string>) returns (r: string)
    ensures r == previous + Join(errors, ", ")
  {
    r := previous;
    var i := 0;
    while i < |errors|
      invariant 0 <= i <= |errors|
      invariant r == previous + Join(errors[..i], ", ")
    {
      if i != 0 {
        r := r + ", ";
      }
      r := r + errors[i];
      assert errors[..i + 1][..i] == errors[..i];
      i := i + 1;
    }
    assert errors[..|errors|] == errors;
  }

  /** addTo's composite recipient in header mode. */
  function ToAddress(email: string, name: string): (r: string)
    ensures name == [] ==> r == email
    ensures name != [] ==>
      && |r| == |name| + |email| + 2
      && r[..|name|] == name && r[|name|] == '<' && r[|name| + 1..|r| - 1] == email && r[|r| - 1] == '>'
  {
    if |name| > 0 then name + "<" + email + ">" else email
  }
}
