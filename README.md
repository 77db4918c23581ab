# pomerium-cli service-account tokens, in Dafny

`pomerium-cli` issues a service-account token for Pomerium: a JWT whose claims
name a non-human principal (email, issuer, audience, groups, optional
impersonation attributes) and which is signed with HS256 under a shared key
given in base 64. This project models the one function that does the work,
`run()` in `cmd/pomerium-cli/cli.go`, and proves what it guarantees.

`run()` goes through four steps, and the model keeps them apart:

1. **Build the claims.** The `serviceAccount` record holds go-jose's registered
   claims (section 4.1 of RFC 7519) followed by Pomerium's fields. It is filled
   from the flag values and from three successive clock readings: expiry is the
   first reading plus the TTL, issued-at is the second and not-before is the
   third (`Cli.Build`).
2. **Pick the key and check the inputs.** The key is the positional argument
   when there is exactly one, and otherwise the line read from standard input
   (`Cli.SharedKey`). The checks then run in a fixed order (key, email,
   audience, issuer) and the first one that fails decides the error
   (`Cli.Validate`).
3. **Decode the key** as padded standard base 64 (section 4 of RFC 4648),
   skipping line breaks (`Base64.DecodeString`).
4. **Sign.** An HS256 signer is built on the decoded bytes, and the marshalled
   claims are signed into a compact JWS (`Cli.SignClaims`).

`Cli.Issue` composes the four steps as a pure function that returns a
`Result<Issued, Error>`. `Cli.Run` is the same code written the way the source
is written: it assigns the fields of `sa` one at a time, picks the key by
branch and returns early at each check. It is proved equal to `Issue`.

Files:

- `wrappers.dfy` (`Wrappers`): `Option` and `Result`.
- `base64.dfy` (`Base64`): a reference decoder and encoder for the standard
  alphabet, with the round trip `Decode(Encode(b)) == Some(b)`, and
  `DecodeString`, which skips line breaks first as Go's decoder does.
- `claims.dfy` (`Claims`): the claim record. It also covers how the record is
  marshalled to JSON members, honouring the `omitempty` tags, and how it is read
  back.
- `cli.dfy` (`Cli`): flags, the clock, errors, the four steps, `Issue` and `Run`.
- `cli_properties.dfy` (`CliProperties`): lemmas about `Issue`.

Inputs that the program reads from its environment are parameters here:

- the clock, as three readings in seconds;
- the line read from standard input, as a string;
- go-jose's signer and serializer, as two functions in `Cli.Signing`.

What the code does, which a reader might not expect:

- The code reads the clock three times (cli.go:72-74). `CliProperties.ClaimTimes`
  states what three monotonic readings give.
- No check looks at the TTL, so a TTL of zero or less gives a token that has
  already expired when it is issued (`CliProperties.NonPositiveTtlAccepted`).
- A failure to marshal the claims is not reported separately. It surfaces from
  `CompactSerialize` as "couldn't sign jwt" (`SignFailed`).
- go-jose writes an audience that has exactly one entry as a plain JSON string
  (`CliProperties.ExamplePayload`).
- Go's base 64 decoder skips carriage returns and line feeds anywhere in its
  input. A key made only of line breaks is not empty, so it passes the key
  check, and it decodes to no bytes: the signer is then asked for an HS256 key
  of length zero (`CliProperties.LineBreakKeyReachesSigner`).
- The claim members reach go-jose in declaration order, which is also the order
  `json.MarshalIndent` prints. go-jose re-marshals them through a map, so the
  signed payload lists them sorted by name. The model reads members back by
  name, so nothing in it depends on the order.

## Model

| member | source | states |
|---|---|---|
| `Cli.Run` | cmd/pomerium-cli/cli.go:41-119 | Assigning the fields one by one, choosing the key by branch and returning early at each check gives exactly the outcome of the pipeline `Issue`. |
| `Cli.Build` | cmd/pomerium-cli/cli.go:41-74 | The record sets no `jti` and has all three dates. With a monotonic clock, expiry is at most issued-at plus the TTL, and issued-at is not after not-before. |
| `Cli.SharedKey` | cmd/pomerium-cli/cli.go:78-89 | The key is the input line or one of the arguments. With exactly one argument, it is that argument. |
| `Cli.Issue` | cmd/pomerium-cli/cli.go:41-119 | A run fails with a missing-input error exactly when a check fails. On success, the claims are the built record and the key decoded. |
| `Cli.Message` | cmd/pomerium-cli/cli.go:91-118 | The messages of the missing-input errors, and only those, end in "required". |
| `Cli.Validate` | cmd/pomerium-cli/cli.go:91-105 | The inputs pass exactly when key, email, audience and issuer are all present. Each missing-input error is returned exactly when its input is missing and every earlier input is present. |
| `Cli.SignClaims` | cmd/pomerium-cli/cli.go:107-119 | "shared key not base64" exactly when the key does not decode. "bad shared key" exactly when it decodes and no HS256 signer is built on the bytes. "couldn't sign jwt" exactly when the signer is built and signing the claim members fails. Otherwise the result is the signer's token. Signing never reports a missing input. |
| `Claims.Fields` | cmd/pomerium-cli/cli.go:19-28 | The record's fields are written under their JSON names, in declaration order, with the registered claims first. |
| `Claims.Marshal` | cmd/pomerium-cli/cli.go:19-28 | The object has at least one member (`email`) and at most twelve, one per claim. |
| `Claims.MarshalNames` | cmd/pomerium-cli/cli.go:19-28 | The object has no member other than the twelve claims, and no member name appears twice. |
| `Claims.MarshalLookup` | cmd/pomerium-cli/cli.go:19-28 | Each field is found in the marshalled object under its own name, with the value it was written with, or is absent when `omitempty` leaves it out. |
| `Claims.MarshalPresence` | cmd/pomerium-cli/cli.go:23-27 | `email` is always present. Every other claim is present exactly when it is non-empty (or, for a date, non-nil). |
| `Claims.UnmarshalMarshal` | cmd/pomerium-cli/cli.go:19-28 | Reading the marshalled claims back gives the same record: nothing is lost, reordered or altered. |
| `Base64.StripLineBreaks` | cmd/pomerium-cli/cli.go:107 | No line break is left, and a string without line breaks is unchanged. Nothing is left exactly when the string is all line breaks. |
| `Base64.DecodeString` | cmd/pomerium-cli/cli.go:107-110 | An accepted key decodes to no bytes exactly when it is made of line breaks only. |
| `Base64.StripConcat` | cmd/pomerium-cli/cli.go:107 | Stripping a concatenation strips each part. With the one-character cases of `StripLineBreaks`' contract, this fixes the result: every character that is not a line break is kept, in order. |
| `Base64.LineBreaksSkipped` | cmd/pomerium-cli/cli.go:107 | A line break is skipped wherever it appears: inserting one anywhere in a key does not change how it decodes, or whether it is rejected. |
| `Base64.Decode` | cmd/pomerium-cli/cli.go:107-110 | A non-empty string that is accepted decodes to at least one byte. `DecodeString` hands it the key with its line breaks skipped. |
| `Base64.Encode` | cmd/pomerium-cli/cli.go:107 | The padded encoding has four characters for every started group of three bytes, and no line breaks. |
| `Base64.DecodeEncode` | cmd/pomerium-cli/cli.go:107 | Decoding inverts the standard padded encoding for every byte string. |
| `Base64.DecodeStringEncode` | cmd/pomerium-cli/cli.go:107 | Go's decoder, which skips line breaks, also inverts the encoding for every byte string. |
| `Base64.DecodedLength` | cmd/pomerium-cli/cli.go:107 | An accepted key is exactly as long as the canonical encoding of its bytes. It carries between 3/4 of its length less 2 and 3/4 of its length in bytes. |
| `Base64.PadBitsIgnoredSingle` | cmd/pomerium-cli/cli.go:107 | Like Go's non-strict decoder: for every byte, a final `xx==` quantum decodes to that byte whatever the four unused bits of its second character hold. |
| `Base64.PadBitsIgnoredPair` | cmd/pomerium-cli/cli.go:107 | The same for every pair of bytes and a final `xxx=` quantum, whatever the two unused bits of its third character hold. |
| `CliProperties.KeySource` | cmd/pomerium-cli/cli.go:78-89 | With exactly one positional argument, the key is that argument and the input line plays no part. With none or several arguments, the key is the input line. |
| `CliProperties.KeyCheckedFirst` | cmd/pomerium-cli/cli.go:91-93 | An empty key fails with "shared key required", whatever the email, audience and issuer are. |
| `CliProperties.CheckOrder` | cmd/pomerium-cli/cli.go:91-105 | For the whole pipeline, each missing-input error happens exactly when its input is missing and all earlier inputs are present, in the order key, email, aud, iss. |
| `CliProperties.MissingInputBeforeDecoding` | cmd/pomerium-cli/cli.go:91-110 | When an input is missing, the run fails with a missing-input error. The outcome is the same for every signer, so no signer is built and nothing is signed. |
| `CliProperties.EmailBeforeDecoding` | cmd/pomerium-cli/cli.go:95-110 | Any non-empty key that is not base 64, together with an empty email, gives "email is required" and not the decoding error, whichever way the key was supplied. |
| `CliProperties.EmptyAudienceBeforeDecoding` | cmd/pomerium-cli/cli.go:99-101 | An empty audience fails with "aud is required" once the key and the email are present, whatever the key decodes to. |
| `CliProperties.NotBase64NothingSigned` | cmd/pomerium-cli/cli.go:107-110 | A key that passes the checks but is not base 64 fails with "shared key not base64", whatever the signer would do. |
| `CliProperties.IssueSucceeds` | cmd/pomerium-cli/cli.go:107-119 | A run succeeds exactly when all checks pass, the key decodes, an HS256 signer is built on the decoded bytes and signing succeeds. The result is then the built record and the signer's token. |
| `CliProperties.SignerKey` | cmd/pomerium-cli/cli.go:91-112 | The bytes given to the signer are empty exactly when the key is made of line breaks only. The key without its line breaks is as long as the canonical encoding of the bytes. |
| `CliProperties.LineBreakKeyReachesSigner` | cmd/pomerium-cli/cli.go:91-115 | The key "\n" passes the key check and decodes to no bytes. If the signer refuses the empty key, the run fails with "bad shared key". |
| `CliProperties.EncodedKeyDecodes` | cmd/pomerium-cli/cli.go:107-115 | A key that encodes some bytes is never rejected as not base 64. If the signer refuses those bytes, the error is "bad shared key". |
| `CliProperties.ClaimTimes` | cmd/pomerium-cli/cli.go:72-74 | For any readings, expiry is the first reading plus the TTL, issued-at is the second reading and not-before the third, so expiry = issued-at + TTL − (t2 − t1). With a monotonic clock, expiry ≤ issued-at + TTL and issued-at ≤ not-before. |
| `CliProperties.DefaultLifetime` | cmd/pomerium-cli/cli.go:63 | With the default TTL of one hour, the token lasts at most 3600 s from issued-at. From not-before it lasts at least 3600 s less the time between the first and third readings. |
| `CliProperties.NonPositiveTtlAccepted` | cmd/pomerium-cli/cli.go:72-105 | A TTL of zero or less changes no check's outcome, and it yields expiry ≤ issued-at ≤ not-before. |
| `CliProperties.PayloadCarriesInputs` | cmd/pomerium-cli/cli.go:55-74 | On success, the claims read back from the signed payload are the flag values, verbatim: lists keep their order and are not deduplicated or trimmed. The dates are the ones the clock gave. |
| `CliProperties.PayloadMembers` | cmd/pomerium-cli/cli.go:19-28 | On success, the payload always has email, iss, aud, exp, nbf and iat. It has sub, groups, user, impersonate_email and impersonate_groups only when they are non-empty, and never jti. |
| `CliProperties.ExamplePayload` | cmd/pomerium-cli/cli.go:55-74 | Email, issuer and one audience with the default TTL and readings T give exactly iss, aud (a plain string), exp = T+3600, nbf = iat = T and email. |
| `CliProperties.MessagesDistinct` | cmd/pomerium-cli/cli.go:91-118 | Different errors have different messages. |

## Left out

- Flag parsing, `flag.ExitOnError` and the help text (cli.go:54-68, 136-153) are command-line plumbing. A parse error ends the process instead of returning, so the model starts from parsed flag values (`Cli.Flags`).
- Comma splitting by `xstrings.CommaSlice` (cli.go:47-49, 60-62) is left out. The audience and the group lists are given already split. The xstrings package is not modelled.
- The key prompt and `bufio.Scanner` (cli.go:83-88) are I/O, so the line read is an input. A failed or empty read gives the empty string, which leads to "shared key required". The error return when printing the prompt fails (cli.go:83-85) is not modelled.
- HMAC-SHA256, the JWS header and the base64url encoding of the three token segments all happen inside go-jose (cli.go:112, 116). They are the uninterpreted `Signing.newSigner` and `Signing.sign`. Cryptographic correctness is not modelled, and neither is the check that a token can be verified again. go-jose itself is not modelled.
- The claim object is modelled as its list of JSON members in declaration order. JSON text, escaping, number formatting and the sorted key order of the signed payload are not modelled.
- `time.Now()`, the truncation to whole seconds by `jwt.NewNumericDate`, and the int64 range of `time.Duration` and `time.Time.Add` (cli.go:72-74) are left out. The readings and the TTL are unbounded whole seconds, so an overflow of `now + ttl` is not modelled.
- `json.MarshalIndent` and its error, the coloured output, printing to stdout and stderr, and `os.Exit` (cli.go:30-37, 76, 120-131) are presentation and process control.
- `Cli.Message`: the wrapped cause that Go appends after `: ` for the decoding, key and signing errors is not modelled.
