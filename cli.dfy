/**
 * The service-account token pipeline of `run()` in cmd/pomerium-cli/cli.go:
 * assemble the claim record from the flag values and the clock, pick the shared
 * key, check the inputs in a fixed order, decode the key from base 64 and sign
 * the claims with HS256 into a compact JWS.
 *
 * The clock, the line read from standard input and the go-jose signer are inputs:
 * three clock readings, the line as a string, and two functions in `Signing`.
 */
module Cli {
  import opened Wrappers
  import opened Claims
  import Base64

  /** The flag values `run()` reads, comma-separated lists already split. `expiry` is in seconds. */
  datatype Flags = Flags(
    email: string,
    impersonateEmail: string,
    iss: string,
    sub: string,
    user: string,
    aud: seq<string>,
    groups: seq<string>,
    impersonateGroups: seq<string>,
    expiry: int)

  /** The default of the `expiry` flag: one hour. */
  const DefaultExpiry := 3600

  /** The values of the flags when none is given on the command line. */
  const DefaultFlags := Flags("", "", "", "", "", [], [], [], DefaultExpiry)

  /** The three successive readings of the wall clock, in seconds. */
  datatype Clock = Clock(first: NumericDate, second: NumericDate, third: NumericDate)

  /** Readings taken one after another from a clock that does not go back. */
  predicate Monotonic(c: Clock) { c.first <= c.second <= c.third }

  datatype Error =
    | KeyRequired
    | EmailRequired
    | AudRequired
    | IssRequired
    | NotBase64
    | BadKey
    | SignFailed

  /** A required input is missing: the errors found before any decoding. */
  predicate IsMissingInput(e: Error)
  {
    e.KeyRequired? || e.EmailRequired? || e.AudRequired? || e.IssRequired?
  }

  predicate EndsWith(s: string, suffix: string)
  {
    |suffix| <= |s| && s[|s| - |suffix|..] == suffix
  }

  /**
   * The message `run()` returns for each error (the wrapped cause after `: ` is
   * not modelled). The missing-input errors are the ones that say "required".
   */
  function Message(e: Error): (m: string)
    ensures IsMissingInput(e) <==> EndsWith(m, "required")
  {
    match e
    case KeyRequired => var m := "shared key required"; assert m[|m| - 8..] == "required"; m
    case EmailRequired => var m := "email is required"; assert m[|m| - 8..] == "required"; m
    case AudRequired => var m := "aud is required"; assert m[|m| - 8..] == "required"; m
    case IssRequired => var m := "iss is required"; assert m[|m| - 8..] == "required"; m
    case NotBase64 => var m := "shared key not base64"; assert m[|m| - 1] != 'd'; m
    case BadKey => var m := "bad shared key"; assert m[|m| - 1] != 'd'; m
    case SignFailed => var m := "couldn't sign jwt"; assert m[|m| - 1] != 'd'; m
  }

  /** The one signature algorithm the program asks for. */
  datatype Algorithm = HS256

  /**
   * go-jose, as far as `run()` uses it: `newSigner` stands for `jose.NewSigner` on
   * a symmetric key, `sign` for `jwt.Signed(signer).Claims(sa).CompactSerialize()`
   * on the claim members in declaration order, which it writes out itself
   * (go-jose writes them sorted by name). Either may fail (`None`).
   */
  datatype Signing<!S> = Signing(
    newSigner: (Algorithm, seq<Base64.Byte>) -> Option<S>,
    sign: (S, seq<Member>) -> Option<string>)

  /** What a successful run prints: the claim record and the compact token. */
  datatype Issued = Issued(claims: ServiceAccount, token: string)

  // ---- the four steps, as functions ----

  /**
   * The claim record: identity fields copied from the flags, expiry from the
   * first clock reading plus the TTL, issued-at from the second, not-before
   * from the third. Nothing is checked here.
   */
  function Build(f: Flags, clock: Clock): (sa: ServiceAccount)
    ensures sa.id == ""
    ensures sa.expiry.Some? && sa.issuedAt.Some? && sa.notBefore.Some?
    ensures Monotonic(clock) ==> sa.expiry.value <= sa.issuedAt.value + f.expiry
    ensures Monotonic(clock) ==> sa.issuedAt.value <= sa.notBefore.value
  {
    Empty.(email := f.email, impersonateEmail := f.impersonateEmail,
           issuer := f.iss, subject := f.sub, user := f.user,
           audience := f.aud, groups := f.groups, impersonateGroups := f.impersonateGroups,
           expiry := Some(clock.first + f.expiry),
           issuedAt := Some(clock.second),
           notBefore := Some(clock.third))
  }

  /** The shared key: the positional argument when there is exactly one, otherwise the line read from standard input. */
  function SharedKey(args: seq<string>, line: string): (key: string)
    ensures key == line || key in args
    ensures |args| == 1 ==> key == args[0]
  {
    if |args| == 1 then args[0] else line
  }

  /** The presence checks, in order; the first that fails decides the error. */
  function Validate(sa: ServiceAccount, key: string): (r: Option<Error>)
    ensures r.None? <==> key != "" && sa.email != "" && sa.audience != [] && sa.issuer != ""
    ensures r == Some(KeyRequired) <==> key == ""
    ensures r == Some(EmailRequired) <==> key != "" && sa.email == ""
    ensures r == Some(AudRequired) <==> key != "" && sa.email != "" && sa.audience == []
    ensures r == Some(IssRequired)
        <==> key != "" && sa.email != "" && sa.audience != [] && sa.issuer == ""
    ensures r.Some? ==> IsMissingInput(r.value)
  {
    if key == "" then Some(KeyRequired)
    else if sa.email == "" then Some(EmailRequired)
    else if |sa.audience| == 0 then Some(AudRequired)
    else if sa.issuer == "" then Some(IssRequired)
    else None
  }

  /** Decode the key, build an HS256 signer on the decoded bytes, sign the marshalled claims. */
  function SignClaims<S>(sa: ServiceAccount, key: string, signing: Signing<S>): (r: Result<string, Error>)
    ensures r == Err(NotBase64) <==> Base64.DecodeString(key).None?
    ensures r == Err(BadKey)
        <==> Base64.DecodeString(key).Some? && signing.newSigner(HS256, Base64.DecodeString(key).value).None?
    ensures r == Err(SignFailed)
        <==> && Base64.DecodeString(key).Some?
             && signing.newSigner(HS256, Base64.DecodeString(key).value).Some?
             && signing.sign(signing.newSigner(HS256, Base64.DecodeString(key).value).value, Marshal(sa)).None?
    ensures r.Ok?
        ==> r.value == signing.sign(signing.newSigner(HS256, Base64.DecodeString(key).value).value, Marshal(sa)).value
    ensures r.Err? ==> !IsMissingInput(r.error)
  {
    match Base64.DecodeString(key)
    case None => Err(NotBase64)
    case Some(decodedKey) =>
      match signing.newSigner(HS256, decodedKey)
      case None => Err(BadKey)
      case Some(signer) =>
        match signing.sign(signer, Marshal(sa))
        case None => Err(SignFailed)
        case Some(raw) => Ok(raw)
  }

  /** The whole pipeline of `run()` up to the printing of its results. */
  function Issue<S>(f: Flags, clock: Clock, args: seq<string>, line: string, signing: Signing<S>)
    : (r: Result<Issued, Error>)
    ensures (r.Err? && IsMissingInput(r.error)) <==> Validate(Build(f, clock), SharedKey(args, line)).Some?
    ensures r.Ok? ==> r.value.claims == Build(f, clock)
    ensures r.Ok? ==> Base64.DecodeString(SharedKey(args, line)).Some?
  {
    var sa := Build(f, clock);
    var key := SharedKey(args, line);
    match Validate(sa, key)
    case Some(e) => Err(e)
    case None =>
      match SignClaims(sa, key, signing)
      case Err(e) => Err(e)
      case Ok(raw) => Ok(Issued(sa, raw))
  }

  // ---- the same, step by step ----

  /**
   * `run()` as written: the fields of `sa` are assigned one at a time, the key is
   * chosen by branch, and each check returns early.
   */
  method Run<S>(f: Flags, clock: Clock, args: seq<string>, line: string, signing: Signing<S>)
    returns (r: Result<Issued, Error>)
    ensures r == Issue(f, clock, args, line, signing)
  {
    var sa := Empty;
    sa := sa.(email := f.email);
    sa := sa.(impersonateEmail := f.impersonateEmail);
    sa := sa.(issuer := f.iss);
    sa := sa.(subject := f.sub);
    sa := sa.(user := f.user);
    sa := sa.(audience := f.aud);
    sa := sa.(groups := f.groups);
    sa := sa.(impersonateGroups := f.impersonateGroups);
    sa := sa.(expiry := Some(clock.first + f.expiry));
    sa := sa.(issuedAt := Some(clock.second));
    sa := sa.(notBefore := Some(clock.third));

    var sharedKey: string;
    if |args| == 1 {
      sharedKey := args[0];
    } else {
      sharedKey := line;
    }

    if sharedKey == "" {
      return Err(KeyRequired);
    }
    if sa.email == "" {
      return Err(EmailRequired);
    }
    if |sa.audience| == 0 {
      return Err(AudRequired);
    }
    if sa.issuer == "" {
      return Err(IssRequired);
    }

    var decodedKey := Base64.DecodeString(sharedKey);
    if decodedKey.None? {
      return Err(NotBase64);
    }
    var signer := signing.newSigner(HS256, decodedKey.value);
    if signer.None? {
      return Err(BadKey);
    }
    var raw := signing.sign(signer.value, Marshal(sa));
    if raw.None? {
      return Err(SignFailed);
    }
    return Ok(Issued(sa, raw.value));
  }
}
