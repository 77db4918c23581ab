/** What the pipeline of `run()` guarantees, stated over all inputs. */
module CliProperties {
  import opened Wrappers
  import opened Claims
  import opened Cli
  import Base64

  // ---- key selection ----

  /**
   * With exactly one positional argument the key is that argument and the line
   * from standard input plays no part; with none or several, the arguments play
   * no part and the key is the line.
   */
  lemma KeySource<S>(f: Flags, clock: Clock, args: seq<string>, line: string, line': string, signing: Signing<S>)
    ensures |args| == 1 ==> Issue(f, clock, args, line, signing) == Issue(f, clock, args, line', signing)
    ensures |args| == 1 ==> Issue(f, clock, args, line, signing) == Issue(f, clock, [], args[0], signing)
    ensures |args| != 1 ==> Issue(f, clock, args, line, signing) == Issue(f, clock, [], line, signing)
  {
  }

  // ---- order of the checks ----

  /** An empty shared key fails before email, audience or issuer are looked at. */
  lemma KeyCheckedFirst<S>(f: Flags, clock: Clock, args: seq<string>, line: string, signing: Signing<S>)
    requires SharedKey(args, line) == ""
    ensures Issue(f, clock, args, line, signing) == Err(KeyRequired)
  {
  }

  /**
   * The checks run in the order key, email, audience, issuer: each missing-input
   * error is returned exactly when its input is missing and all earlier ones are present.
   */
  lemma CheckOrder<S>(f: Flags, clock: Clock, args: seq<string>, line: string, signing: Signing<S>)
    ensures var key := SharedKey(args, line);
      && (Issue(f, clock, args, line, signing) == Err(KeyRequired) <==> key == "")
      && (Issue(f, clock, args, line, signing) == Err(EmailRequired) <==> key != "" && f.email == "")
      && (Issue(f, clock, args, line, signing) == Err(AudRequired)
          <==> key != "" && f.email != "" && f.aud == [])
      && (Issue(f, clock, args, line, signing) == Err(IssRequired)
          <==> key != "" && f.email != "" && f.aud != [] && f.iss == "")
  {
    var sa, key := Build(f, clock), SharedKey(args, line);
    var v := Validate(sa, key);
    if v.None? {
      var s := SignClaims(sa, key, signing);
      assert s.Err? ==> !IsMissingInput(s.error);
    }
  }

  /**
   * A missing input is reported before the key is decoded or anything is signed:
   * the outcome is the same whatever the key decodes to and whatever the signer does.
   */
  lemma MissingInputBeforeDecoding<S>(f: Flags, clock: Clock, args: seq<string>, line: string,
                                      signing: Signing<S>, signing': Signing<S>)
    requires Validate(Build(f, clock), SharedKey(args, line)).Some?
    ensures Issue(f, clock, args, line, signing) == Issue(f, clock, args, line, signing')
    ensures Issue(f, clock, args, line, signing).Err?
    ensures IsMissingInput(Issue(f, clock, args, line, signing).error)
  {
  }

  /** A key that is not base 64 together with an empty email gives the email error, not the decoding one. */
  lemma EmailBeforeDecoding<S>(f: Flags, clock: Clock, args: seq<string>, line: string, signing: Signing<S>)
    requires f.email == "" && SharedKey(args, line) != ""
    requires Base64.DecodeString(SharedKey(args, line)).None?
    ensures Issue(f, clock, args, line, signing) == Err(EmailRequired)
  {
  }

  /** An empty audience fails with the audience error before the key is decoded. */
  lemma EmptyAudienceBeforeDecoding<S>(f: Flags, clock: Clock, args: seq<string>, line: string,
                                       signing: Signing<S>)
    requires SharedKey(args, line) != "" && f.email != "" && f.aud == []
    ensures Issue(f, clock, args, line, signing) == Err(AudRequired)
  {
  }

  // ---- decoding and signing ----

  /**
   * A key that passes the checks but is not standard base 64 fails with the
   * decoding error, and no signer is built and nothing signed: the signer's
   * behaviour makes no difference.
   */
  lemma NotBase64NothingSigned<S>(f: Flags, clock: Clock, args: seq<string>, line: string,
                                  signing: Signing<S>, signing': Signing<S>)
    requires Validate(Build(f, clock), SharedKey(args, line)).None?
    requires Base64.DecodeString(SharedKey(args, line)).None?
    ensures Issue(f, clock, args, line, signing) == Err(NotBase64)
    ensures Issue(f, clock, args, line, signing') == Err(NotBase64)
  {
  }

  /**
   * A run succeeds exactly when every check passes, the key decodes, an HS256
   * signer is built on the decoded bytes and it signs the marshalled claims; the
   * result is then the built record and the token the signer produced.
   */
  lemma IssueSucceeds<S>(f: Flags, clock: Clock, args: seq<string>, line: string, signing: Signing<S>)
    ensures var sa, key := Build(f, clock), SharedKey(args, line);
      Issue(f, clock, args, line, signing).Ok?
      <==> && Validate(sa, key).None?
           && Base64.DecodeString(key).Some?
           && signing.newSigner(HS256, Base64.DecodeString(key).value).Some?
           && signing.sign(signing.newSigner(HS256, Base64.DecodeString(key).value).value, Marshal(sa)).Some?
    ensures var sa, key := Build(f, clock), SharedKey(args, line);
      Issue(f, clock, args, line, signing).Ok? ==>
        Issue(f, clock, args, line, signing).value
        == Issued(sa, signing.sign(signing.newSigner(HS256, Base64.DecodeString(key).value).value, Marshal(sa)).value)
  {
  }

  /**
   * The bytes handed to the signer are exactly what the key encodes once its line
   * breaks are skipped: that is as long as the canonical encoding of the bytes.
   * They are empty exactly when the key is made of line breaks only, which the
   * empty-key check does not catch.
   */
  lemma SignerKey(f: Flags, clock: Clock, args: seq<string>, line: string)
    requires Validate(Build(f, clock), SharedKey(args, line)).None?
    requires Base64.DecodeString(SharedKey(args, line)).Some?
    ensures var key := SharedKey(args, line);
      |Base64.DecodeString(key).value| == 0 <==> forall i :: 0 <= i < |key| ==> Base64.IsLineBreak(key[i])
    ensures var key := SharedKey(args, line);
      |Base64.StripLineBreaks(key)| == |Base64.Encode(Base64.DecodeString(key).value)|
  {
    Base64.DecodedLength(Base64.StripLineBreaks(SharedKey(args, line)));
  }

  /**
   * A key of one line feed is not empty, so it passes the key check, and it
   * decodes to no bytes: the signer is asked for an HS256 signer on an empty
   * key, and if it refuses, the run fails with "bad shared key".
   */
  lemma LineBreakKeyReachesSigner<S>(f: Flags, clock: Clock, signing: Signing<S>)
    requires f.email != "" && f.aud != [] && f.iss != ""
    ensures Base64.DecodeString("\n") == Some([])
    ensures Issue(f, clock, ["\n"], "", signing) != Err(KeyRequired)
    ensures signing.newSigner(HS256, []).None? ==> Issue(f, clock, ["\n"], "", signing) == Err(BadKey)
  {
    assert Base64.StripLineBreaks("\n") == [];
  }

  /** A key that is the encoding of some bytes is never rejected as not base 64. */
  lemma EncodedKeyDecodes<S>(f: Flags, clock: Clock, key: seq<Base64.Byte>, signing: Signing<S>)
    requires Validate(Build(f, clock), Base64.Encode(key)).None?
    ensures Issue(f, clock, [Base64.Encode(key)], "", signing) != Err(NotBase64)
    ensures signing.newSigner(HS256, key).None?
        ==> Issue(f, clock, [Base64.Encode(key)], "", signing) == Err(BadKey)
  {
    Base64.DecodeStringEncode(key);
  }

  // ---- timestamps ----

  /**
   * Expiry is the first reading plus the TTL, issued-at the second reading and
   * not-before the third, whatever the readings. With a monotonic clock, expiry falls short of
   * issued-at plus the TTL by exactly the time between the first two readings,
   * and issued-at is not after not-before.
   */
  lemma ClaimTimes(f: Flags, clock: Clock)
    ensures var sa := Build(f, clock);
      && sa.expiry == Some(clock.first + f.expiry)
      && sa.issuedAt == Some(clock.second)
      && sa.notBefore == Some(clock.third)
      && sa.expiry.value == sa.issuedAt.value + f.expiry - (clock.second - clock.first)
    ensures var sa := Build(f, clock);
      Monotonic(clock) ==>
        && sa.expiry.value <= sa.issuedAt.value + f.expiry
        && sa.issuedAt.value <= sa.notBefore.value
  {
  }

  /** With the default TTL the token lasts at most one hour from issue, and at least one hour less the clock's drift. */
  lemma DefaultLifetime(f: Flags, clock: Clock)
    requires Monotonic(clock) && f.expiry == DefaultExpiry
    ensures var sa := Build(f, clock);
      && sa.expiry.value - sa.issuedAt.value <= 3600
      && sa.expiry.value - sa.notBefore.value >= 3600 - (clock.third - clock.first)
  {
  }

  /**
   * A TTL of zero or less is not rejected: no check looks at it, and the token
   * is issued already expired.
   */
  lemma NonPositiveTtlAccepted(f: Flags, clock: Clock, key: string)
    requires Monotonic(clock) && f.expiry <= 0
    ensures Validate(Build(f, clock), key) == Validate(Build(f.(expiry := DefaultExpiry), clock), key)
    ensures Build(f, clock).expiry.value <= Build(f, clock).issuedAt.value <= Build(f, clock).notBefore.value
  {
  }

  // ---- the signed claims ----

  /**
   * The claims a verifier reads back from the signed payload are the inputs,
   * verbatim: audience, groups and impersonation groups in the order given,
   * with nothing added, dropped or trimmed.
   */
  lemma PayloadCarriesInputs<S>(f: Flags, clock: Clock, args: seq<string>, line: string, signing: Signing<S>)
    requires Issue(f, clock, args, line, signing).Ok?
    ensures var read := Unmarshal(Marshal(Issue(f, clock, args, line, signing).value.claims));
      && read.email == f.email && read.issuer == f.iss && read.subject == f.sub
      && read.user == f.user && read.impersonateEmail == f.impersonateEmail
      && read.audience == f.aud && read.groups == f.groups
      && read.impersonateGroups == f.impersonateGroups
      && read.expiry == Some(clock.first + f.expiry)
      && read.issuedAt == Some(clock.second) && read.notBefore == Some(clock.third)
  {
    UnmarshalMarshal(Build(f, clock));
  }

  /**
   * In the signed payload `email`, `iss`, `aud` and the three dates are always
   * present; `groups`, `user`, `impersonate_email` and `impersonate_groups`
   * only when non-empty, `sub` only when given, and `jti` never.
   */
  lemma PayloadMembers<S>(f: Flags, clock: Clock, args: seq<string>, line: string, signing: Signing<S>)
    requires Issue(f, clock, args, line, signing).Ok?
    ensures var m := Marshal(Issue(f, clock, args, line, signing).value.claims);
      && Lookup(m, "email") == Some(JString(f.email))
      && Lookup(m, "iss").Some? && Lookup(m, "aud").Some?
      && Lookup(m, "exp").Some? && Lookup(m, "nbf").Some? && Lookup(m, "iat").Some?
      && (Lookup(m, "sub").Some? <==> f.sub != "")
      && (Lookup(m, "groups").Some? <==> f.groups != [])
      && (Lookup(m, "user").Some? <==> f.user != "")
      && (Lookup(m, "impersonate_email").Some? <==> f.impersonateEmail != "")
      && (Lookup(m, "impersonate_groups").Some? <==> f.impersonateGroups != [])
      && Lookup(m, "jti").None?
  {
    MarshalPresence(Build(f, clock));
  }

  /**
   * The worked example: email, issuer and one audience, the default TTL and
   * three equal readings T. The payload holds iss, aud (a plain string, since
   * there is one), exp = T + 3600, nbf = iat = T and email, and nothing else.
   */
  lemma ExamplePayload(t: NumericDate)
    ensures var f := DefaultFlags.(email := "svc@example.com", iss := "issuer.example.com",
                                   aud := ["api.example.com"]);
      var m := Marshal(Build(f, Clock(t, t, t)));
      && Lookup(m, "iss") == Some(JString("issuer.example.com"))
      && Lookup(m, "aud") == Some(JString("api.example.com"))
      && Lookup(m, "exp") == Some(JNumber(t + 3600))
      && Lookup(m, "nbf") == Some(JNumber(t))
      && Lookup(m, "iat") == Some(JNumber(t))
      && Lookup(m, "email") == Some(JString("svc@example.com"))
      && Lookup(m, "sub").None? && Lookup(m, "jti").None?
      && Lookup(m, "groups").None? && Lookup(m, "user").None?
      && Lookup(m, "impersonate_email").None? && Lookup(m, "impersonate_groups").None?
  {
    var f := DefaultFlags.(email := "svc@example.com", iss := "issuer.example.com",
                           aud := ["api.example.com"]);
    var sa := Build(f, Clock(t, t, t));
    MarshalLookup(sa, 0);
    MarshalLookup(sa, 2);
    MarshalLookup(sa, 3);
    MarshalLookup(sa, 4);
    MarshalLookup(sa, 5);
    MarshalPresence(sa);
  }

  // ---- errors ----

  /** Every error has its own message, so the cause can be told from the message alone. */
  lemma MessagesDistinct(e: Error, e': Error)
    requires e != e'
    ensures Message(e) != Message(e')
  {
  }
}
