/**
 The input schemas of `src/lib/validation.ts`, each as a parse function that
 either rejects its input or returns the normalised value zod hands to the
 caller. zod collects a list of issues with messages; here a rejection is just
 `Invalid`.

 Every schema is built from the shared `requiredString`, which trims its input
 and then demands at least one character, so every such field is returned in
 trimmed form.
 */
module Validation {
  import opened Wrappers
  import opened Text

  datatype Parsed<+T> = Valid(value: T) | Invalid

  const PasswordMin := 8
  const TierNameMax := 50
  const DescriptionMax := 500
  const PriceMin: real := 0.01
  const PriceMax: real := 999.99
  const DurationMin: real := 1.0
  const DurationMax: real := 12.0
  const DurationDefault: real := 1.0
  const BioMax := 1000
  const TiersMax := 10
  const MediaMax := 5

  // ---------------------------------------------------------------------------
  // Field-level rules

  /** `requiredString`: trim, then at least one character. A string is accepted
      exactly when it contains a character that is not white space. */
  function RequiredString(s: string): (r: Parsed<string>)
    ensures r.Valid? <==> HasVisibleChar(s)
    ensures r.Valid? ==> r.value == Trim(s) && |r.value| >= 1
  {
    TrimEmptyIff(s);
    var t := Trim(s);
    if |t| >= 1 then Valid(t) else Invalid
  }

  /** `z.string().max(n)`: a length bound with no trimming. */
  function MaxLength(s: string, n: nat): (r: Parsed<string>)
    ensures r.Valid? <==> |s| <= n
    ensures r.Valid? ==> r.value == s
  {
    if |s| <= n then Valid(s) else Invalid
  }

  /** A character of the character class `[a-zA-Z0-9_-]`. */
  predicate IsUsernameChar(c: char) {
    || ('a' <= c <= 'z') || ('A' <= c <= 'Z') || ('0' <= c <= '9')
    || c == '_' || c == '-'
  }

  /** The username of the sign-up form: `requiredString` refined by the
      pattern `^[a-zA-Z0-9_-]+$`, which is matched against the trimmed text. */
  function ParseUsername(s: string): (r: Parsed<string>)
    ensures r.Valid? <==> |Trim(s)| >= 1 && forall k :: 0 <= k < |Trim(s)| ==> IsUsernameChar(Trim(s)[k])
    ensures r.Valid? ==> r.value == Trim(s)
  {
    match RequiredString(s)
    case Invalid => Invalid
    case Valid(t) =>
      if forall k :: 0 <= k < |t| ==> IsUsernameChar(t[k]) then Valid(t) else Invalid
  }

  /** The password of the sign-up form: `requiredString` with a minimum of
      eight characters, counted after trimming. */
  function ParsePassword(s: string): (r: Parsed<string>)
    ensures r.Valid? <==> |Trim(s)| >= PasswordMin
    ensures r.Valid? ==> r.value == Trim(s)
  {
    match RequiredString(s)
    case Invalid => Invalid
    case Valid(t) => if |t| >= PasswordMin then Valid(t) else Invalid
  }

  /** The e-mail of the sign-up form: `requiredString` refined by zod's
      `.email()`, whose rule is not part of this model and is supplied as
      `isEmail`; it is applied to the trimmed text. */
  function ParseEmail(s: string, isEmail: string -> bool): (r: Parsed<string>)
    ensures r.Valid? <==> HasVisibleChar(s) && isEmail(Trim(s))
    ensures r.Valid? ==> r.value == Trim(s)
  {
    match RequiredString(s)
    case Invalid => Invalid
    case Valid(t) => if isEmail(t) then Valid(t) else Invalid
  }

  /** A real number that has no fractional part (`Number.isInteger`). */
  predicate IsInteger(x: real) {
    x.Floor as real == x
  }

  /** `durationInMonths`: a whole number from 1 to 12, or 1 when the field is
      absent. */
  function ParseDuration(d: Option<real>): (r: Parsed<real>)
    ensures d.None? ==> r == Valid(DurationDefault)
    ensures d.Some? ==> (r.Valid? <==> IsInteger(d.value) && DurationMin <= d.value <= DurationMax)
    ensures d.Some? && r.Valid? ==> r.value == d.value
    ensures r.Valid? ==> IsInteger(r.value) && DurationMin <= r.value <= DurationMax
  {
    match d
    case None => Valid(DurationDefault)
    case Some(x) =>
      if IsInteger(x) && DurationMin <= x <= DurationMax then Valid(x) else Invalid
  }

  /** `price`: a number from 0.01 to 999.99, both bounds included. */
  function ParsePrice(p: real): (r: Parsed<real>)
    ensures r.Valid? <==> PriceMin <= p <= PriceMax
    ensures r.Valid? ==> r.value == p
  {
    if p < PriceMin || p > PriceMax then Invalid else Valid(p)
  }

  /** An optional `z.string().max(n)`: absent is accepted as absent. */
  function ParseOptionalText(s: Option<string>, n: nat): (r: Parsed<Option<string>>)
    ensures r.Valid? <==> (s.Some? ==> |s.value| <= n)
    ensures r.Valid? ==> r.value == s
  {
    match s
    case None => Valid(None)
    case Some(x) =>
      match MaxLength(x, n)
      case Invalid => Invalid
      case Valid(y) => Valid(Some(y))
  }

  // ---------------------------------------------------------------------------
  // Sign-up, login, posts and comments

  datatype SignUpValues = SignUpValues(email: string, username: string, password: string)

  /** `signUpSchema`. */
  function ParseSignUp(x: SignUpValues, isEmail: string -> bool): (r: Parsed<SignUpValues>)
    ensures r.Valid? <==>
      && HasVisibleChar(x.email) && isEmail(Trim(x.email))
      && |Trim(x.username)| >= 1
      && (forall k :: 0 <= k < |Trim(x.username)| ==> IsUsernameChar(Trim(x.username)[k]))
      && |Trim(x.password)| >= PasswordMin
    ensures r.Valid? ==> r.value == SignUpValues(Trim(x.email), Trim(x.username), Trim(x.password))
  {
    match (ParseEmail(x.email, isEmail), ParseUsername(x.username), ParsePassword(x.password))
    case (Valid(e), Valid(u), Valid(p)) => Valid(SignUpValues(e, u, p))
    case _ => Invalid
  }

  datatype LoginValues = LoginValues(username: string, password: string)

  /** `loginSchema`: both fields are merely required, with no length or
      character rule. */
  function ParseLogin(x: LoginValues): (r: Parsed<LoginValues>)
    ensures r.Valid? <==> HasVisibleChar(x.username) && HasVisibleChar(x.password)
    ensures r.Valid? ==> r.value == LoginValues(Trim(x.username), Trim(x.password))
  {
    match (RequiredString(x.username), RequiredString(x.password))
    case (Valid(u), Valid(p)) => Valid(LoginValues(u, p))
    case _ => Invalid
  }

  datatype PostValues = PostValues(content: string, mediaIds: seq<string>)

  /** `createPostSchema`: required content and at most five attachment ids,
      which are taken as they are. */
  function ParsePost(x: PostValues): (r: Parsed<PostValues>)
    ensures r.Valid? <==> HasVisibleChar(x.content) && |x.mediaIds| <= MediaMax
    ensures r.Valid? ==> r.value == PostValues(Trim(x.content), x.mediaIds)
  {
    match RequiredString(x.content)
    case Invalid => Invalid
    case Valid(c) => if |x.mediaIds| <= MediaMax then Valid(PostValues(c, x.mediaIds)) else Invalid
  }

  datatype CommentValues = CommentValues(content: string)

  /** `createCommentSchema`: the same required-content rule as a post. */
  function ParseComment(x: CommentValues): (r: Parsed<CommentValues>)
    ensures r.Valid? <==> HasVisibleChar(x.content)
    ensures r.Valid? ==> r.value == CommentValues(Trim(x.content))
  {
    match RequiredString(x.content)
    case Invalid => Invalid
    case Valid(c) => Valid(CommentValues(c))
  }

  // ---------------------------------------------------------------------------
  // Subscription tiers and the profile update

  /** A tier as submitted. The schema declares no `id`; zod drops keys it does
      not declare, so none is modelled. A JavaScript number is a `real`. */
  datatype TierInput = TierInput(
    name: string,
    description: Option<string>,
    price: real,
    color: Option<string>,
    durationInMonths: Option<real>)

  /** A tier as the schema returns it: the name trimmed and the duration
      always present. */
  datatype Tier = Tier(
    name: string,
    description: Option<string>,
    price: real,
    color: Option<string>,
    durationInMonths: real)

  /** The acceptance rule of `subscriptionTierSchema`, field by field: a name
      of 1 to 50 characters once trimmed, a description of at most 500
      characters if any, a price in [0.01, 999.99], and a duration that, if
      given, is a whole number of months from 1 to 12. The color is free. */
  predicate TierAcceptable(t: TierInput) {
    && 1 <= |Trim(t.name)| <= TierNameMax
    && (t.description.Some? ==> |t.description.value| <= DescriptionMax)
    && PriceMin <= t.price <= PriceMax
    && (t.durationInMonths.Some? ==>
          IsInteger(t.durationInMonths.value)
          && DurationMin <= t.durationInMonths.value <= DurationMax)
  }

  /** `v` is what the schema makes of `t`: the name trimmed, the description
      kept untrimmed, and the duration defaulted to one month when absent. */
  predicate TierNormalises(t: TierInput, v: Tier) {
    && v.name == Trim(t.name)
    && v.description == t.description
    && v.price == t.price
    && v.color == t.color
    && (t.durationInMonths.None? ==> v.durationInMonths == DurationDefault)
    && (t.durationInMonths.Some? ==> v.durationInMonths == t.durationInMonths.value)
  }

  /** `subscriptionTierSchema`. */
  function ParseTier(t: TierInput): (r: Parsed<Tier>)
    ensures r.Valid? <==> TierAcceptable(t)
    ensures r.Valid? ==> TierNormalises(t, r.value)
  {
    var name := match RequiredString(t.name)
      case Invalid => Invalid
      case Valid(n) => MaxLength(n, TierNameMax);
    match (name, ParseOptionalText(t.description, DescriptionMax), ParsePrice(t.price), ParseDuration(t.durationInMonths))
    case (Valid(n), Valid(d), Valid(p), Valid(m)) => Valid(Tier(n, d, p, t.color, m))
    case _ => Invalid
  }

  /** `z.array(subscriptionTierSchema)` without its length bound: every
      element must be acceptable, and the parsed list lines up with the
      input element by element. */
  function ParseTiers(ts: seq<TierInput>): (r: Parsed<seq<Tier>>)
    ensures r.Valid? <==> forall i :: 0 <= i < |ts| ==> TierAcceptable(ts[i])
    ensures r.Valid? ==> |r.value| == |ts| && forall i :: 0 <= i < |ts| ==> TierNormalises(ts[i], r.value[i])
  {
    if ts == [] then Valid([])
    else
      var head := ParseTier(ts[0]);
      var rest := ParseTiers(ts[1..]);
      assert forall i :: 0 <= i < |ts| - 1 ==> ts[1..][i] == ts[i + 1];
      if head.Invalid? || rest.Invalid? then Invalid
      else
        NormalisesCons(ts, head.value, rest.value);
        Valid([head.value] + rest.value)
  }

  lemma NormalisesCons(ts: seq<TierInput>, v: Tier, vs: seq<Tier>)
    requires |ts| == |vs| + 1
    requires TierNormalises(ts[0], v)
    requires forall i :: 0 <= i < |vs| ==> TierNormalises(ts[1..][i], vs[i])
    ensures forall i :: 0 <= i < |ts| ==> TierNormalises(ts[i], ([v] + vs)[i])
  {
    forall i | 0 <= i < |ts|
      ensures TierNormalises(ts[i], ([v] + vs)[i])
    {
      if i > 0 {
        assert ts[i] == ts[1..][i - 1];
        assert ([v] + vs)[i] == vs[i - 1];
      }
    }
  }

  datatype ProfileInput = ProfileInput(displayName: string, bio: string, subscriptionTiers: seq<TierInput>)

  datatype Profile = Profile(displayName: string, bio: string, subscriptionTiers: seq<Tier>)

  /** `updateUserProfileSchema`: a required display name, a bio of at most
      1000 characters (not trimmed) and at most ten tiers, each of which must
      parse; one bad tier rejects the whole profile. */
  function ParseProfile(p: ProfileInput): (r: Parsed<Profile>)
    ensures r.Valid? <==>
      && HasVisibleChar(p.displayName)
      && |p.bio| <= BioMax
      && |p.subscriptionTiers| <= TiersMax
      && forall i :: 0 <= i < |p.subscriptionTiers| ==> TierAcceptable(p.subscriptionTiers[i])
    ensures r.Valid? ==>
      && r.value.displayName == Trim(p.displayName)
      && r.value.bio == p.bio
      && |r.value.subscriptionTiers| == |p.subscriptionTiers|
      && forall i :: 0 <= i < |p.subscriptionTiers| ==> TierNormalises(p.subscriptionTiers[i], r.value.subscriptionTiers[i])
  {
    var tiers := if |p.subscriptionTiers| <= TiersMax then ParseTiers(p.subscriptionTiers) else Invalid;
    match (RequiredString(p.displayName), MaxLength(p.bio, BioMax), tiers)
    case (Valid(d), Valid(b), Valid(ts)) => Valid(Profile(d, b, ts))
    case _ => Invalid
  }

  // ---------------------------------------------------------------------------
  // Re-parsing parsed values

  /** A parsed tier offered to the schema again, with the default duration now
      written out. */
  function TierAsInput(t: Tier): TierInput {
    TierInput(t.name, t.description, t.price, t.color, Some(t.durationInMonths))
  }

  function TiersAsInput(ts: seq<Tier>): (r: seq<TierInput>)
    ensures |r| == |ts| && forall i :: 0 <= i < |ts| ==> r[i] == TierAsInput(ts[i])
  {
    seq(|ts|, i requires 0 <= i < |ts| => TierAsInput(ts[i]))
  }

  function ProfileAsInput(p: Profile): ProfileInput {
    ProfileInput(p.displayName, p.bio, TiersAsInput(p.subscriptionTiers))
  }

  /** A normalised tier, offered again, is acceptable and normalises to
      itself: trimming is idempotent and the filled-in duration is kept. */
  lemma NormalisedTierIsFixed(t: TierInput, v: Tier)
    requires TierAcceptable(t) && TierNormalises(t, v)
    ensures TierAcceptable(TierAsInput(v)) && TierNormalises(TierAsInput(v), v)
  {
    TrimIdempotent(t.name);
  }

  /** Tier parsing is idempotent: what the schema returns, it accepts again
      unchanged. */
  lemma ParseTierIdempotent(t: TierInput)
    requires ParseTier(t).Valid?
    ensures ParseTier(TierAsInput(ParseTier(t).value)) == ParseTier(t)
  {
    var v := ParseTier(t).value;
    NormalisedTierIsFixed(t, v);
    var w := ParseTier(TierAsInput(v)).value;
    assert w.name == v.name && w.description == v.description && w.price == v.price;
    assert w.color == v.color && w.durationInMonths == v.durationInMonths;
  }

  /** Profile parsing is idempotent. */
  lemma ParseProfileIdempotent(p: ProfileInput)
    requires ParseProfile(p).Valid?
    ensures ParseProfile(ProfileAsInput(ParseProfile(p).value)) == ParseProfile(p)
  {
    var v := ParseProfile(p).value;
    var q := ProfileAsInput(v);
    TrimIdempotent(p.displayName);
    forall i | 0 <= i < |q.subscriptionTiers|
      ensures TierAcceptable(q.subscriptionTiers[i]) && TierNormalises(q.subscriptionTiers[i], v.subscriptionTiers[i])
    {
      NormalisedTierIsFixed(p.subscriptionTiers[i], v.subscriptionTiers[i]);
    }
    assert HasVisibleChar(q.displayName) by { TrimEmptyIff(q.displayName); }
    var w := ParseProfile(q).value;
    assert |w.subscriptionTiers| == |v.subscriptionTiers|;
    forall i | 0 <= i < |w.subscriptionTiers|
      ensures w.subscriptionTiers[i] == v.subscriptionTiers[i]
    {
      var a, b := w.subscriptionTiers[i], v.subscriptionTiers[i];
      assert a.name == b.name && a.description == b.description && a.price == b.price;
      assert a.color == b.color && a.durationInMonths == b.durationInMonths;
    }
    assert w.subscriptionTiers == v.subscriptionTiers;
    assert w.displayName == v.displayName && w.bio == v.bio;
  }

  /** Sign-up parsing is idempotent. */
  lemma ParseSignUpIdempotent(x: SignUpValues, isEmail: string -> bool)
    requires ParseSignUp(x, isEmail).Valid?
    ensures ParseSignUp(ParseSignUp(x, isEmail).value, isEmail) == ParseSignUp(x, isEmail)
  {
    TrimIdempotent(x.email);
    TrimIdempotent(x.username);
    TrimIdempotent(x.password);
    TrimEmptyIff(Trim(x.email));
  }

  /** Login parsing is idempotent. */
  lemma ParseLoginIdempotent(x: LoginValues)
    requires ParseLogin(x).Valid?
    ensures ParseLogin(ParseLogin(x).value) == ParseLogin(x)
  {
    TrimIdempotent(x.username);
    TrimIdempotent(x.password);
    TrimEmptyIff(Trim(x.username));
    TrimEmptyIff(Trim(x.password));
  }

  /** Post parsing is idempotent. */
  lemma ParsePostIdempotent(x: PostValues)
    requires ParsePost(x).Valid?
    ensures ParsePost(ParsePost(x).value) == ParsePost(x)
  {
    TrimIdempotent(x.content);
    TrimEmptyIff(Trim(x.content));
  }

  /** Comment parsing is idempotent. */
  lemma ParseCommentIdempotent(x: CommentValues)
    requires ParseComment(x).Valid?
    ensures ParseComment(ParseComment(x).value) == ParseComment(x)
  {
    TrimIdempotent(x.content);
    TrimEmptyIff(Trim(x.content));
  }

  /** Surrounding white space around a username is stripped, not rejected. */
  lemma UsernameStripsSurroundingWhitespace(a: string, m: string, b: string)
    requires AllWhitespace(a) && AllWhitespace(b)
    requires |m| >= 1 && forall k :: 0 <= k < |m| ==> IsUsernameChar(m[k])
    ensures ParseUsername(a + m + b) == Valid(m)
  {
    assert !IsWhitespace(m[0]) && !IsWhitespace(m[|m| - 1]);
    TrimUnique(a, m, b);
  }

  /** White space around a password does not count toward its minimum
      length. */
  lemma PasswordPaddingDoesNotCount(a: string, m: string, b: string)
    requires AllWhitespace(a) && AllWhitespace(b) && Tight(m)
    ensures ParsePassword(a + m + b).Valid? <==> |m| >= PasswordMin
  {
    TrimUnique(a, m, b);
  }
}
