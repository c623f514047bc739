/**
 `POST /api/v1/ai/analyze-meal`: checks that an image was sent, answers a
 fixed estimate when no API key is configured, and otherwise asks the
 vision model and extracts the JSON object from its answer. The model call
 and `JSON.parse` are foreign code: they are parameters here, `None`
 standing for a call that throws.
 */
module AnalyzeMealRoute {
  import opened Js
  import opened Text

  datatype Body = Body(image: Field<string>)

  /** What the route answers: the fixed estimate, or the parsed model answer. */
  datatype Analysis<J> =
    | Estimate(foodName: string, calories: int, protein: int, carbs: int, fats: int)
    | Parsed(json: J)

  /** A success carries a message only in the mock answer; `message` is ""
      when the route sends none. */
  datatype Answer<J> = Ok(message: string, data: Analysis<J>) | Error(status: nat, message: string)

  const MockMessage := "AI analysis successful (Mock Data - ADD GEMINI_API_KEY to .env)"

  function MockEstimate<J>(): Analysis<J> {
    Estimate("Avocado Toast with Egg", 450, 18, 35, 28)
  }

  const DataPrefix := "data:image/"
  const Base64Marker := ";base64,"

  /** `image.replace(/^data:image\\/\\w+;base64,/, '')`: the prefix is removed
      once when it is there, the string is left alone otherwise. */
  function StripDataUrl(s: string): (r: string)
    ensures r == s || (|r| < |s| && r == s[|s| - |r|..])
    ensures !(DataPrefix <= s) ==> r == s
  {
    if DataPrefix <= s then
      var rest := s[|DataPrefix|..];
      var n := WordPrefixLength(rest);
      if n > 0 && Base64Marker <= rest[n..] then rest[n + |Base64Marker|..] else s
    else s
  }

  /** The string is a data URL of an image with MIME subtype `mime` and
      payload `payload`, as the regular expression describes it. */
  ghost predicate IsDataUrl(s: string, mime: string, payload: string) {
    && |mime| > 0
    && (forall i :: 0 <= i < |mime| ==> IsWordChar(mime[i]))
    && s == DataPrefix + mime + Base64Marker + payload
  }

  /** Stripping a data URL leaves exactly its payload. */
  lemma StripDataUrlOfDataUrl(s: string, mime: string, payload: string)
    requires IsDataUrl(s, mime, payload)
    ensures StripDataUrl(s) == payload
  {
    var marked := Base64Marker + payload;
    SlicesOfFour(s, DataPrefix, mime, Base64Marker, payload);
    WordPrefixOf(mime, marked);
  }

  /** Where the pieces of a four-part concatenation sit. */
  lemma SlicesOfFour(s: string, p: string, w: string, k: string, x: string)
    requires s == p + w + k + x
    ensures p <= s && s[|p|..] == w + (k + x)
    ensures (w + (k + x))[|w|..] == k + x
    ensures k <= k + x
    ensures (w + (k + x))[|w| + |k|..] == x
  {
    assert s == p + (w + (k + x));
  }

  /** Whatever the stripping changes was a data-URL prefix. */
  lemma StripDataUrlRemovesOnlyPrefix(s: string)
    requires StripDataUrl(s) != s
    ensures exists mime :: IsDataUrl(s, mime, StripDataUrl(s))
  {
    var a := |DataPrefix|;
    var rest := s[a..];
    var n := WordPrefixLength(rest);
    assert DataPrefix <= s && n > 0 && Base64Marker <= rest[n..];
    var b := a + n;
    var c := b + |Base64Marker|;
    assert rest[n..] == s[b..];
    var mime := s[a..b];
    var payload := s[c..];
    assert mime == rest[..n];
    assert payload == StripDataUrl(s);
    SplitFour(s, a, b, c);
    assert s[..a] == DataPrefix && s[b..c] == Base64Marker;
    assert IsDataUrl(s, mime, payload);
  }

  /** A string is the concatenation of its pieces between three cut points. */
  lemma SplitFour(s: string, a: nat, b: nat, c: nat)
    requires a <= b <= c <= |s|
    ensures s == s[..a] + s[a..b] + s[b..c] + s[c..]
  {
    assert s[..a] + s[a..b] == s[..b];
    assert s[..b] + s[b..c] == s[..c];
  }

  /** The span the regular expression matches, given the first `{` at `i`
      and the last `}` at `j`. */
  ghost predicate IsBraceSpan(text: string, span: string, i: nat, j: nat) {
    && i < j < |text|
    && text[i] == '{' && text[j] == '}'
    && (forall k :: 0 <= k < i ==> text[k] != '{')
    && (forall k :: j < k < |text| ==> text[k] != '}')
    && span == text[i..j + 1]
  }

  /** `text.match(/\{[\s\S]*\}/)`: the span from the first `{` to the last
      `}` after it, if there is one. */
  function BraceSpan(text: string): (r: Option<string>)
    ensures r.Some? ==> exists i, j :: IsBraceSpan(text, r.value, i, j)
    ensures r.None? <==> !exists i, j :: 0 <= i < j < |text| && text[i] == '{' && text[j] == '}'
  {
    match IndexOf(text, '{')
    case None => None
    case Some(i) =>
      match LastIndexOf(text, '}')
      case None => None
      case Some(j) =>
        if i < j then
          assert IsBraceSpan(text, text[i..j + 1], i, j);
          Some(text[i..j + 1])
        else None
  }

  /** The API key counts as configured when it is set and not empty. */
  predicate HasKey(apiKey: Option<string>) {
    apiKey.Some? && apiKey.value != ""
  }

  /** The handler. `generate` is the model call on the image payload; `parse`
      is `JSON.parse`. */
  function Post<J>(b: Body, apiKey: Option<string>, generate: string -> Option<string>, parse: string -> Option<J>): (r: Answer<J>)
    ensures r == Error(400, "Image data is required") <==> !Truthy(b.image, "")
    ensures Truthy(b.image, "") && !HasKey(apiKey) ==> r == Ok(MockMessage, MockEstimate())
    ensures r.Error? && r.status != 400 ==> r == Error(500, "Failed to analyze meal")
    ensures r.Ok? && HasKey(apiKey) ==>
      && generate(StripDataUrl(b.image.value)).Some?
      && BraceSpan(generate(StripDataUrl(b.image.value)).value).Some?
      && parse(BraceSpan(generate(StripDataUrl(b.image.value)).value).value).Some?
      && r == Ok("", Parsed(parse(BraceSpan(generate(StripDataUrl(b.image.value)).value).value).value))
    ensures Truthy(b.image, "") && HasKey(apiKey) ==>
      (r.Error? <==>
        || generate(StripDataUrl(b.image.value)).None?
        || BraceSpan(generate(StripDataUrl(b.image.value)).value).None?
        || parse(BraceSpan(generate(StripDataUrl(b.image.value)).value).value).None?)
  {
    if !Truthy(b.image, "") then Error(400, "Image data is required")
    else if !HasKey(apiKey) then Ok(MockMessage, MockEstimate())
    else
      var failed := Error(500, "Failed to analyze meal");
      match generate(StripDataUrl(b.image.value))
      case None => failed
      case Some(text) =>
        match BraceSpan(text)
        case None => failed
        case Some(span) =>
          match parse(span)
          case None => failed
          case Some(j) => Ok("", Parsed(j))
  }

  /** The model only sees the payload: two images with the same payload get
      the same answer. */
  lemma OnlyPayloadReachesModel<J>(b: Body, b': Body, apiKey: Option<string>,
                                   generate: string -> Option<string>, parse: string -> Option<J>)
    requires Truthy(b.image, "") && Truthy(b'.image, "")
    requires StripDataUrl(b.image.value) == StripDataUrl(b'.image.value)
    ensures Post(b, apiKey, generate, parse) == Post(b', apiKey, generate, parse)
  {
  }

  /** An answer without a closing brace after an opening one is a failure,
      whatever the parser would do. */
  lemma AnswerWithoutObjectFails<J>(b: Body, apiKey: Option<string>,
                                    generate: string -> Option<string>, parse: string -> Option<J>)
    requires Truthy(b.image, "") && HasKey(apiKey)
    requires generate(StripDataUrl(b.image.value)) == Some("no object here")
    ensures Post(b, apiKey, generate, parse) == Error(500, "Failed to analyze meal")
  {
    assert BraceSpan("no object here").None? by {
      assert '{' !in "no object here";
    }
  }
}
