/**
 * The club serializers' field-level rules (backend/clubs/serializers.py):
 * `ClubSerializer.validate_*`, `social_validation_helper`,
 * `ClubListSerializer.get_short_description` and `ClubListSerializer.get_fields`.
 *
 * Library calls are parameters: `clean` (the HTML sanitiser), `urlparse` (giving
 * the network location, path and query of a URL) and Django's `URLValidator`.
 */
module ClubFields {
  import opened Wrappers
  import opened Strings
  import opened Roles

  datatype FieldError =
    | NoActivePermission
    | InvalidDescription
    | MissingEmail
    | InvalidWebsite
    | MissingTag

  // ---------------------------------------------------------------------------
  // validate_active
  // ---------------------------------------------------------------------------

  /**
   * `validate_active(value)`: `membership` is the caller's row in the club named
   * by the URL's `code`.
   */
  function ValidateActive(user: User, membership: Option<Membership>, value: bool): (r: Result<bool, FieldError>)
    ensures r.Ok? ==> r.value == value
    ensures r.Ok? <==> HasPerm(user, APPROVE_CLUB) || (membership.Some? && IsAtLeast(membership.value.role, ROLE_OFFICER))
  {
    if HasPerm(user, APPROVE_CLUB) then Ok(value)
    else if membership.Some? && membership.value.role <= ROLE_OFFICER then Ok(value)
    else Err(NoActivePermission)
  }

  // ---------------------------------------------------------------------------
  // validate_description, validate_email, validate_tags
  // ---------------------------------------------------------------------------

  /** `validate_description(value)`: the sanitised, stripped text, which must be longer than 10 characters. */
  function ValidateDescription(clean: string -> string, value: string): (r: Result<string, FieldError>)
    ensures r.Ok? <==> |Strip(clean(value))| > 10
    ensures r.Ok? ==> r.value == Strip(clean(value))
    ensures r.Ok? ==> !IsPySpace(r.value[0]) && !IsPySpace(r.value[|r.value| - 1])
  {
    var out := Strip(clean(value));
    if |out| <= 10 then Err(InvalidDescription) else Ok(out)
  }

  /** `validate_email(value)`: a contact email must be given (None and "" are refused). */
  function ValidateEmail(value: Option<string>): (r: Result<string, FieldError>)
    ensures r.Ok? <==> value.Some? && value.value != ""
    ensures r.Ok? ==> r.value == value.value
  {
    if value.None? || value.value == "" then Err(MissingEmail) else Ok(value.value)
  }

  const NECESSARY_TAGS: set<string> := {"Undergraduate", "Graduate"}

  /**
   * `validate_tags(value)`: `tagNames` are the submitted tags' names (None when a
   * tag has no name) and `necessaryTagsInDb` the number of necessary tags that exist.
   */
  function ValidateTags(branding: string, tagNames: seq<Option<string>>, necessaryTagsInDb: nat): (r: Result<seq<Option<string>>, FieldError>)
    ensures r.Ok? ==> r.value == tagNames
    ensures branding == "fyh" ==> (r.Ok? <==> |tagNames| >= 1)
    ensures branding != "fyh" ==>
      (r.Err? <==> (forall i :: 0 <= i < |tagNames| ==> !(tagNames[i].Some? && tagNames[i].value in NECESSARY_TAGS))
                   && necessaryTagsInDb >= |NECESSARY_TAGS|)
  {
    if branding == "fyh" then
      if |tagNames| < 1 then Err(MissingTag) else Ok(tagNames)
    else if !(exists i :: 0 <= i < |tagNames| && tagNames[i].Some? && tagNames[i].value in NECESSARY_TAGS)
            && necessaryTagsInDb >= |NECESSARY_TAGS| then Err(MissingTag)
    else Ok(tagNames)
  }

  // ---------------------------------------------------------------------------
  // validate_website
  // ---------------------------------------------------------------------------

  /** Python's `\w` restricted to ASCII: letters, digits and the underscore. */
  predicate IsWordChar(c: char) {
    ('a' <= c <= 'z') || ('A' <= c <= 'Z') || ('0' <= c <= '9') || c == '_'
  }

  /** The number of leading word characters. */
  function WordPrefixLength(s: string): (n: nat)
    ensures n <= |s|
    ensures forall i :: 0 <= i < n ==> IsWordChar(s[i])
    ensures n < |s| ==> !IsWordChar(s[n])
  {
    if s != [] && IsWordChar(s[0]) then 1 + WordPrefixLength(s[1..]) else 0
  }

  /** `re.match(r"^\w+://", value)` */
  predicate HasScheme(s: string) {
    var n := WordPrefixLength(s);
    n >= 1 && StartsWith(s[n..], "://")
  }

  /** The website after stripping, with `https://` added when it names no scheme. */
  function NormalisedWebsite(value: string): string {
    var v := Strip(value);
    if HasScheme(v) then v else "https://" + v
  }

  /**
   * `validate_website(value)` as written: blank values pass through; otherwise the
   * URL is normalised and checked, and then nothing is returned, so a valid
   * website is stored as None.
   */
  function ValidateWebsiteAsWritten(urlValid: string -> bool, value: Option<string>): Result<Option<string>, FieldError> {
    if value.None? || value.value == "" then Ok(value)
    else if !urlValid(NormalisedWebsite(value.value)) then Err(InvalidWebsite)
    else Ok(None)
  }

  /** A website the owner enters is lost: "example.com" is valid yet the field becomes None. */
  lemma WebsiteDroppedAsWritten()
    ensures ValidateWebsiteAsWritten(_ => true, Some("example.com")) == Ok(None)
  {
  }

  /** `validate_website(value)` returning the normalised URL, as its doc comment intends. */
  function ValidateWebsite(urlValid: string -> bool, value: Option<string>): (r: Result<Option<string>, FieldError>)
    ensures value.None? || value.value == "" ==> r == Ok(value)
    ensures value.Some? && value.value != "" ==>
      (r.Ok? <==> urlValid(NormalisedWebsite(value.value)))
    ensures value.Some? && value.value != "" && r.Ok? ==>
      r.value.Some? && HasScheme(r.value.value) && urlValid(r.value.value)
  {
    if value.None? || value.value == "" then Ok(value)
    else
      var url := NormalisedWebsite(value.value);
      if !urlValid(url) then Err(InvalidWebsite)
      else
        NormalisedHasScheme(value.value);
        Ok(Some(url))
  }

  /** A normalised website always names a scheme; one that already did is kept as stripped. */
  lemma NormalisedHasScheme(value: string)
    ensures HasScheme(NormalisedWebsite(value))
    ensures HasScheme(Strip(value)) ==> NormalisedWebsite(value) == Strip(value)
  {
    var v := Strip(value);
    if !HasScheme(v) {
      HttpsAddsScheme(v);
    }
  }

  /** Prefixing `https://` gives a URL with a scheme. */
  lemma HttpsAddsScheme(v: string)
    ensures HasScheme("https://" + v)
  {
    var w := "https://" + v;
    assert w[0] == 'h' && w[1] == 't' && w[2] == 't' && w[3] == 'p' && w[4] == 's';
    assert w[5] == ':' && w[6] == '/' && w[7] == '/';
    WordPrefixOfWordChars(w, 5);
    assert w[5..][..3] == "://";
    assert StartsWith(w[5..], "://");
  }

  lemma {:induction false} WordPrefixOfWordChars(s: string, n: nat)
    requires n < |s| && !IsWordChar(s[n])
    requires forall i :: 0 <= i < n ==> IsWordChar(s[i])
    ensures WordPrefixLength(s) == n
    decreases n
  {
    if n > 0 {
      WordPrefixOfWordChars(s[1..], n - 1);
    }
  }

  // ---------------------------------------------------------------------------
  // social_validation_helper and the social-network validators
  // ---------------------------------------------------------------------------

  /** The parts of `urlparse(value)` the helper reads. */
  datatype ParsedUrl = ParsedUrl(netloc: string, path: string, query: string)

  /** The expected host: one domain, or a list whose first element is the default. */
  datatype Domain = Single(domain: string) | Choices(domains: seq<string>)

  /** `social_validation_helper(value, domain, prefix, at_prefix)` */
  function SocialValidationHelper(parse: string -> ParsedUrl, value: Option<string>, domain: Domain,
                                  prefix: string, atPrefix: Option<string>): (r: Option<string>)
    requires domain.Choices? ==> domain.domains != []
    ensures value.None? || value.value == "" ==> r == value
    ensures value.Some? && value.value != "" ==> r.Some? && StartsWith(r.value, "https://")
  {
    if value.None? || value.value == "" then value
    else
      var parsed := parse(Strip(value.value));
      var path := SocialPath(parsed, prefix, atPrefix);
      var host := ChosenDomain(domain, parsed.netloc);
      Some("https://" + host + path)
  }

  /** The path part of the helper's result, with the query re-attached. */
  function SocialPath(parsed: ParsedUrl, prefix: string, atPrefix: Option<string>): string {
    var path :=
      if StartsWith(parsed.path, "@") then atPrefix.GetOr(prefix) + "/" + parsed.path[1..] + "/"
      else if !StartsWith(parsed.path, "/") then prefix + "/" + parsed.path + "/"
      else parsed.path;
    if parsed.query != "" then path + "?" + parsed.query else path
  }

  /** The host: the URL's own when it is one of the choices, otherwise the (first) expected one. */
  function ChosenDomain(domain: Domain, netloc: string): (host: string)
    requires domain.Choices? ==> domain.domains != []
    ensures domain.Single? ==> host == domain.domain
    ensures domain.Choices? ==> host in domain.domains
    ensures domain.Choices? && netloc in domain.domains ==> host == netloc
  {
    match domain
    case Single(d) => d
    case Choices(ds) => if netloc in ds then netloc else ds[0]
  }

  /**
   * The helper always produces an absolute path when the prefixes are empty or
   * absolute, keeps an absolute path unchanged, and turns a handle `@name` into
   * `<at_prefix or prefix>/name/`.
   */
  lemma SocialPathShape(parsed: ParsedUrl, prefix: string, atPrefix: Option<string>)
    requires prefix == "" || StartsWith(prefix, "/")
    requires atPrefix.Some? ==> atPrefix.value == "" || StartsWith(atPrefix.value, "/")
    ensures StartsWith(SocialPath(parsed, prefix, atPrefix), "/")
    ensures StartsWith(parsed.path, "/") && parsed.query == "" ==> SocialPath(parsed, prefix, atPrefix) == parsed.path
    ensures StartsWith(parsed.path, "@") && parsed.query == "" ==>
      SocialPath(parsed, prefix, atPrefix) == atPrefix.GetOr(prefix) + "/" + parsed.path[1..] + "/"
  {
    var p := SocialPath(parsed, prefix, atPrefix);
    var base :=
      if StartsWith(parsed.path, "@") then atPrefix.GetOr(prefix) + "/" + parsed.path[1..] + "/"
      else if !StartsWith(parsed.path, "/") then prefix + "/" + parsed.path + "/"
      else parsed.path;
    assert StartsWith(base, "/");
    assert p == base || p == base + "?" + parsed.query;
    assert p[..1] == base[..1];
  }

  /** The social-network fields of `ClubSerializer`. */
  datatype Network = Facebook | Twitter | Instagram | LinkedIn | GitHub | YouTube

  /** `validate_facebook` … `validate_youtube`: the helper with each network's domain and prefixes. */
  function ValidateSocial(parse: string -> ParsedUrl, network: Network, value: Option<string>): (r: Option<string>)
    ensures value.None? || value.value == "" ==> r == value
    ensures value.Some? && value.value != "" ==> r.Some? && StartsWith(r.value, "https://")
  {
    match network
    case Facebook => SocialValidationHelper(parse, value, Single("facebook.com"), "/groups", Some(""))
    case Twitter => SocialValidationHelper(parse, value, Single("twitter.com"), "", None)
    case Instagram => SocialValidationHelper(parse, value, Single("instagram.com"), "", None)
    case LinkedIn => SocialValidationHelper(parse, value, Single("linkedin.com"), "/company", None)
    case GitHub => SocialValidationHelper(parse, value, Single("github.com"), "", None)
    case YouTube => SocialValidationHelper(parse, value, Choices(["youtube.com", "youtu.be"]), "", None)
  }

  /** A Facebook handle `@name` becomes a profile path, and a bare name a group path. */
  lemma FacebookPaths(name: string)
    requires name != [] && name[0] != '@' && name[0] != '/'
    ensures SocialPath(ParsedUrl("", "@" + name, ""), "/groups", Some("")) == "/" + name + "/"
    ensures SocialPath(ParsedUrl("", name, ""), "/groups", Some("")) == "/groups/" + name + "/"
  {
    var handle := "@" + name;
    assert StartsWith(handle, "@") && handle[1..] == name;
    assert !StartsWith(name, "@") && !StartsWith(name, "/");
  }

  lemma FacebookUrl(parse: string -> ParsedUrl, value: string)
    requires value != []
    ensures ValidateSocial(parse, Facebook, Some(value)) ==
      Some("https://facebook.com" + SocialPath(parse(Strip(value)), "/groups", Some("")))
  {
    assert "https://" + "facebook.com" == "https://facebook.com";
  }

  // ---------------------------------------------------------------------------
  // get_short_description
  // ---------------------------------------------------------------------------

  /**
   * The position of the `>` that closes a tag opened at s[0], when `<[^>]+>`
   * matches there (at least one character between the brackets).
   */
  function TagEnd(s: string): (r: Option<nat>)
    requires s != [] && s[0] == '<'
    ensures r.Some? ==> 2 <= r.value < |s| && s[r.value] == '>' && forall i :: 1 <= i < r.value ==> s[i] != '>'
    ensures r.None? ==> |s| < 2 || s[1] == '>' || forall i :: 1 <= i < |s| ==> s[i] != '>'
  {
    var j := FirstIndexOf(s, '>', 1);
    if j.Some? && j.value >= 2 then j else None
  }

  /** The first index at or after `from` holding `c`. */
  function FirstIndexOf(s: string, c: char, from: nat): (r: Option<nat>)
    ensures r.Some? ==> from <= r.value < |s| && s[r.value] == c && forall i :: from <= i < r.value ==> s[i] != c
    ensures r.None? ==> forall i :: from <= i < |s| ==> s[i] != c
    decreases |s| - from
  {
    if from >= |s| then None
    else if s[from] == c then Some(from)
    else FirstIndexOf(s, c, from + 1)
  }

  /** `re.sub(r"<[^>]+>", "", s)`: every tag removed, scanning left to right. */
  function RemoveTags(s: string): (r: string)
    ensures |r| <= |s|
    decreases |s|
  {
    if s == [] then []
    else if s[0] == '<' && TagEnd(s).Some? then RemoveTags(s[TagEnd(s).value + 1..])
    else [s[0]] + RemoveTags(s[1..])
  }

  predicate IsSentenceEnd(c: char) {
    c == '.' || c == '\n' || c == '!'
  }

  /**
   * `"".join(re.split(r"(\.|\n|!)", s)[:2])`: the text up to and including the
   * first '.', newline or '!'; all of it when there is none.
   */
  function FirstSentence(s: string): (r: string)
    ensures |r| <= |s| && r == s[..|r|]
    ensures forall i :: 0 <= i < |r| - 1 ==> !IsSentenceEnd(r[i])
    ensures |r| < |s| ==> r != [] && IsSentenceEnd(r[|r| - 1])
  {
    if s == [] then []
    else if IsSentenceEnd(s[0]) then [s[0]]
    else [s[0]] + FirstSentence(s[1..])
  }

  /** The HTML entity decoding chain, in the source's order. */
  function DecodeEntities(s: string): (r: string)
    ensures |r| <= |s|
  {
    Replace(Replace(Replace(Replace(Replace(Replace(s, "&amp;", "&"), "&lt;", "<"), "&gt;", ">"),
      "&ndash;", "-"), "&mdash;", "-"), "&nbsp;", " ")
  }

  /** `get_short_description(obj)` for a club with `subtitle` and `description`. */
  function GetShortDescription(subtitle: Option<string>, description: string): string {
    if subtitle.Some? && subtitle.value != "" then subtitle.value
    else
      var desc := LStrip(description);
      var desc := if |desc| > 1000 then desc[..1000] else desc;
      Strip(DecodeEntities(FirstSentence(RemoveTags(desc))))
  }

  /**
   * A subtitle wins when set; otherwise the result is at most 1000 characters,
   * drawn from the description's characters and the entity replacements, with
   * no whitespace at either end.
   */
  lemma ShortDescriptionBounds(subtitle: Option<string>, description: string)
    ensures subtitle.Some? && subtitle.value != "" ==> GetShortDescription(subtitle, description) == subtitle.value
    ensures subtitle.None? || subtitle.value == "" ==>
      var r := GetShortDescription(subtitle, description);
      |r| <= 1000 && |r| <= |description| &&
      (r != [] ==> !IsPySpace(r[0]) && !IsPySpace(r[|r| - 1]))
  {
  }

  /** A description without tags, entities or sentence ends is only stripped. */
  lemma PlainDescriptionKept(description: string)
    requires |description| <= 1000
    requires forall i :: 0 <= i < |description| ==> description[i] != '<' && description[i] != '&' && !IsSentenceEnd(description[i])
    ensures GetShortDescription(None, description) == Strip(description)
  {
    var d := LStrip(description);
    assert IsPlain(description);
    LStripPlain(description);
    PlainTextKept(d);
    ShortDescriptionOfShortText(description, d);
    StripOfLStrip(description);
  }

  /** Without a subtitle, a text of at most 1000 characters that processing keeps is only stripped. */
  lemma ShortDescriptionOfShortText(description: string, d: string)
    requires |description| <= 1000 && d == LStrip(description)
    requires DecodeEntities(FirstSentence(RemoveTags(d))) == d
    ensures GetShortDescription(None, description) == Strip(d)
  {
  }

  /** Text with no tag opening, entity or sentence end. */
  predicate IsPlain(s: string) {
    forall i :: 0 <= i < |s| ==> s[i] != '<' && s[i] != '&' && !IsSentenceEnd(s[i])
  }

  /** Left-stripping plain text leaves plain text. */
  lemma LStripPlain(description: string)
    requires IsPlain(description)
    ensures IsPlain(LStrip(description))
  {
    var d := LStrip(description);
    var off := |description| - |d|;
    forall i | 0 <= i < |d| ensures d[i] == description[off + i] {
    }
  }

  /** Tag removal, the first-sentence cut and entity decoding leave plain text alone. */
  lemma PlainTextKept(d: string)
    requires IsPlain(d)
    ensures DecodeEntities(FirstSentence(RemoveTags(d))) == d
  {
    PlainTextUnchanged(d);
    NoSentenceEndKept(d);
    NoEntityKept(d);
  }

  lemma {:induction false} PlainTextUnchanged(s: string)
    requires forall i :: 0 <= i < |s| ==> s[i] != '<'
    ensures RemoveTags(s) == s
    decreases |s|
  {
    if s != [] {
      PlainTextUnchanged(s[1..]);
    }
  }

  lemma {:induction false} NoSentenceEndKept(s: string)
    requires forall i :: 0 <= i < |s| ==> !IsSentenceEnd(s[i])
    ensures FirstSentence(s) == s
    decreases |s|
  {
    if s != [] {
      NoSentenceEndKept(s[1..]);
    }
  }

  lemma NoEntityKept(s: string)
    requires forall i :: 0 <= i < |s| ==> s[i] != '&'
    ensures DecodeEntities(s) == s
  {
    NoAmpersandReplace(s, "&amp;", "&");
    NoAmpersandReplace(s, "&lt;", "<");
    NoAmpersandReplace(s, "&gt;", ">");
    NoAmpersandReplace(s, "&ndash;", "-");
    NoAmpersandReplace(s, "&mdash;", "-");
    NoAmpersandReplace(s, "&nbsp;", " ");
  }

  lemma {:induction false} NoAmpersandReplace(s: string, pat: string, rep: string)
    requires pat != [] && pat[0] == '&'
    requires forall i :: 0 <= i < |s| ==> s[i] != '&'
    ensures Replace(s, pat, rep) == s
    decreases |s|
  {
    if |s| >= |pat| {
      assert s[..|pat|][0] == s[0];
      NoAmpersandReplace(s[1..], pat, rep);
    }
  }

  lemma StripOfLStrip(s: string)
    ensures Strip(LStrip(s)) == Strip(s)
  {
    var l := LStrip(s);
    assert LStrip(l) == l;
  }

  // ---------------------------------------------------------------------------
  // get_fields
  // ---------------------------------------------------------------------------

  /** The first position of `x` in `s`. */
  function FirstIndex(s: seq<string>, x: string): (i: nat)
    requires x in s
    ensures i < |s| && s[i] == x && x !in s[..i]
  {
    if s[0] == x then 0
    else
      var j := FirstIndex(s[1..], x);
      assert s[1..][..j] == s[1..j + 1];
      1 + j
  }

  /** `x` keeps its first position when something is appended after it. */
  lemma {:induction false} FirstIndexAppend(s: seq<string>, y: string, x: string)
    requires x in s
    ensures FirstIndex(s + [y], x) == FirstIndex(s, x)
  {
    if s[0] != x {
      assert (s + [y])[1..] == s[1..] + [y];
      FirstIndexAppend(s[1..], y, x);
    }
  }

  /**
   * The requested names that exist, in request order, each at its first request:
   * the keys of the `fields_subset` dictionary built by `get_fields`.
   */
  function Selected(requested: seq<string>, allFields: seq<string>): (sel: seq<string>)
    ensures forall f :: f in sel <==> f in allFields && f in requested
    ensures forall i, j :: 0 <= i < j < |sel| ==> sel[i] != sel[j]
    ensures forall i, j :: 0 <= i < j < |sel| ==> FirstIndex(requested, sel[i]) < FirstIndex(requested, sel[j])
    decreases |requested|
  {
    if requested == [] then []
    else
      var init := requested[..|requested| - 1];
      var k := requested[|requested| - 1];
      var prev := Selected(init, allFields);
      assert requested == init + [k];
      SelectedMembersStep(init, k, allFields, prev);
      SelectedOrderStep(init, k, allFields, prev);
      if k in allFields && k !in prev then prev + [k] else prev
  }

  /** The membership and no-repeat clauses of `Selected` carry over one more request. */
  lemma SelectedMembersStep(init: seq<string>, k: string, allFields: seq<string>, prev: seq<string>)
    requires forall f :: f in prev <==> f in allFields && f in init
    requires forall i, j :: 0 <= i < j < |prev| ==> prev[i] != prev[j]
    ensures var sel := if k in allFields && k !in prev then prev + [k] else prev;
      && (forall f :: f in sel <==> f in allFields && f in init + [k])
      && (forall i, j :: 0 <= i < j < |sel| ==> sel[i] != sel[j])
  {
  }

  /** The order clause of `Selected` carries over one more request. */
  lemma SelectedOrderStep(init: seq<string>, k: string, allFields: seq<string>, prev: seq<string>)
    requires forall f :: f in prev <==> f in allFields && f in init
    requires forall i, j :: 0 <= i < j < |prev| ==> FirstIndex(init, prev[i]) < FirstIndex(init, prev[j])
    ensures var sel := if k in allFields && k !in prev then prev + [k] else prev;
      forall i, j :: 0 <= i < j < |sel| ==> FirstIndex(init + [k], sel[i]) < FirstIndex(init + [k], sel[j])
  {
    var req := init + [k];
    forall i, j | 0 <= i < j < |prev|
      ensures FirstIndex(req, prev[i]) < FirstIndex(req, prev[j])
    {
      FirstIndexAppend(init, k, prev[i]);
      FirstIndexAppend(init, k, prev[j]);
    }
    if k in allFields && k !in prev {
      var sel := prev + [k];
      assert req[..|init|] == init;
      assert FirstIndex(req, k) == |init|;
      forall i, j | 0 <= i < j < |sel|
        ensures FirstIndex(req, sel[i]) < FirstIndex(req, sel[j])
      {
        assert sel[i] == prev[i];
        if j == |prev| {
          FirstIndexAppend(init, k, prev[i]);
        } else {
          assert sel[j] == prev[j];
        }
      }
    }
  }

  /**
   * `get_fields()` over field names: with a non-empty `fields` query parameter,
   * the requested names that exist, in request order and without repeats;
   * all fields when none was requested or none of the requested ones exists.
   */
  method GetFields(allFields: seq<string>, fieldsParam: string) returns (fields: seq<string>)
    ensures fieldsParam == "" ==> fields == allFields
    ensures fieldsParam != "" && (exists k :: k in Split(fieldsParam, {','}) && k in allFields) ==>
      fields == Selected(Split(fieldsParam, {','}), allFields)
    ensures fieldsParam != "" && (exists k :: k in Split(fieldsParam, {','}) && k in allFields) ==>
      forall f :: f in fields <==> f in allFields && f in Split(fieldsParam, {','})
    ensures fieldsParam != "" && (forall k :: k in Split(fieldsParam, {','}) ==> k !in allFields) ==>
      fields == allFields
  {
    if fieldsParam == "" {
      return allFields;
    }
    var requested := Split(fieldsParam, {','});
    var subset: seq<string> := [];
    for n := 0 to |requested|
      invariant subset == Selected(requested[..n], allFields)
    {
      var k := requested[n];
      assert requested[..n + 1][..n] == requested[..n];
      if k in allFields && k !in subset {
        subset := subset + [k];
      }
    }
    assert requested[..|requested|] == requested;
    if |subset| > 0 {
      assert subset[0] in allFields && subset[0] in requested;
      fields := subset;
    } else {
      fields := allFields;
    }
  }
}
