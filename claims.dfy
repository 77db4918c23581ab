/**
 * The `serviceAccount` claim record of cmd/pomerium-cli/cli.go: the registered
 * claims of section 4.1 of RFC 7519 (go-jose's embedded `jwt.Claims`) followed by
 * Pomerium's own fields, and the JSON object it is marshalled to before signing.
 */
module Claims {
  import opened Wrappers

  /** Seconds since the epoch (a `jwt.NumericDate`). */
  type NumericDate = int

  datatype ServiceAccount = ServiceAccount(
    // registered claims; the three dates are pointers in go-jose, so they may be absent
    issuer: string,
    subject: string,
    audience: seq<string>,
    expiry: Option<NumericDate>,
    notBefore: Option<NumericDate>,
    issuedAt: Option<NumericDate>,
    id: string,
    // Pomerium claims
    email: string,
    groups: seq<string>,
    user: string,
    impersonateEmail: string,
    impersonateGroups: seq<string>)

  /** The zero value of the record, as `var sa serviceAccount` declares it. */
  const Empty := ServiceAccount("", "", [], None, None, None, "", "", [], "", "", [])

  /** The JSON values a claim can take. */
  datatype Json = JString(str: string) | JNumber(num: int) | JStrings(strs: seq<string>)

  /** A JSON object member: its name and its value. */
  type Member = (string, Json)

  // ---- marshalling ----

  /** A string field with `omitempty`: absent when empty. */
  function OmitEmptyString(s: string): Option<Json>
  {
    if s == "" then None else Some(JString(s))
  }

  /** A string-list field with `omitempty`: absent when the list is empty. */
  function OmitEmptyStrings(l: seq<string>): Option<Json>
  {
    if l == [] then None else Some(JStrings(l))
  }

  /** A date field with `omitempty`: absent when the pointer is nil. */
  function OmitNilDate(d: Option<NumericDate>): Option<Json>
  {
    match d
    case None => None
    case Some(t) => Some(JNumber(t))
  }

  /** go-jose writes an audience of exactly one entry as a plain string, otherwise as a list. */
  function AudienceValue(aud: seq<string>): Option<Json>
  {
    if aud == [] then None
    else if |aud| == 1 then Some(JString(aud[0]))
    else Some(JStrings(aud))
  }

  /** The JSON names of the fields, in declaration order: the embedded registered claims first. */
  const FieldNames: seq<string> := ["iss", "sub", "aud", "exp", "nbf", "iat", "jti",
    "email", "groups", "user", "impersonate_email", "impersonate_groups"]

  /**
   * Each field's name and the value it is written with, `None` when its `omitempty`
   * option leaves it out. Only `email` has no `omitempty`.
   */
  function Fields(sa: ServiceAccount): (fs: seq<(string, Option<Json>)>)
    ensures |fs| == |FieldNames|
    ensures forall i :: 0 <= i < |fs| ==> fs[i].0 == FieldNames[i]
  {
    [("iss", OmitEmptyString(sa.issuer)),
     ("sub", OmitEmptyString(sa.subject)),
     ("aud", AudienceValue(sa.audience)),
     ("exp", OmitNilDate(sa.expiry)),
     ("nbf", OmitNilDate(sa.notBefore)),
     ("iat", OmitNilDate(sa.issuedAt)),
     ("jti", OmitEmptyString(sa.id)),
     ("email", Some(JString(sa.email))),
     ("groups", OmitEmptyStrings(sa.groups)),
     ("user", OmitEmptyString(sa.user)),
     ("impersonate_email", OmitEmptyString(sa.impersonateEmail)),
     ("impersonate_groups", OmitEmptyStrings(sa.impersonateGroups))]
  }

  /** The members of the fields that are written, in order. */
  function Written(fs: seq<(string, Option<Json>)>): (m: seq<Member>)
    ensures |m| <= |fs|
  {
    if fs == [] then []
    else
      (match fs[0].1 case None => [] case Some(v) => [(fs[0].0, v)]) + Written(fs[1..])
  }

  /**
   * The claim members in declaration order, as `json.Marshal` produces them and
   * as the signer receives them. go-jose re-marshals them through a map, so the
   * signed payload lists them sorted by name; nothing here depends on the order,
   * since members are read back by name. There is at least one member, `email`,
   * and at most one per claim.
   */
  function Marshal(sa: ServiceAccount): (m: seq<Member>)
    ensures 1 <= |m| <= |FieldNames|
  {
    var fs := Fields(sa);
    assert fs[7] == ("email", Some(JString(sa.email)));
    WrittenNonEmpty(fs, 7);
    Written(fs)
  }

  // ---- reading the object back, as a verifier of the token would ----

  /** The value of the first member named `key`. */
  function Lookup(m: seq<Member>, key: string): Option<Json>
  {
    if m == [] then None
    else if m[0].0 == key then Some(m[0].1)
    else Lookup(m[1..], key)
  }

  function AsString(v: Option<Json>): string
  {
    match v
    case Some(JString(s)) => s
    case _ => ""
  }

  function AsStrings(v: Option<Json>): seq<string>
  {
    match v
    case Some(JStrings(l)) => l
    case Some(JString(s)) => [s]
    case _ => []
  }

  function AsDate(v: Option<Json>): Option<NumericDate>
  {
    match v
    case Some(JNumber(t)) => Some(t)
    case _ => None
  }

  /** Reads a claims object into the record; an absent member reads as the field's zero value. */
  function Unmarshal(m: seq<Member>): ServiceAccount
  {
    ServiceAccount(
      AsString(Lookup(m, "iss")), AsString(Lookup(m, "sub")), AsStrings(Lookup(m, "aud")),
      AsDate(Lookup(m, "exp")), AsDate(Lookup(m, "nbf")), AsDate(Lookup(m, "iat")),
      AsString(Lookup(m, "jti")), AsString(Lookup(m, "email")), AsStrings(Lookup(m, "groups")),
      AsString(Lookup(m, "user")), AsString(Lookup(m, "impersonate_email")),
      AsStrings(Lookup(m, "impersonate_groups")))
  }

  // ---- properties ----

  /** Every written member is one of the fields, with the value that field is written with. */
  lemma {:induction false} WrittenFrom(fs: seq<(string, Option<Json>)>, k: nat)
    requires k < |Written(fs)|
    ensures exists j :: 0 <= j < |fs| && fs[j] == (Written(fs)[k].0, Some(Written(fs)[k].1))
  {
    if fs[0].1.None? {
      WrittenFrom(fs[1..], k);
      var j :| 0 <= j < |fs[1..]| && fs[1..][j] == (Written(fs[1..])[k].0, Some(Written(fs[1..])[k].1));
      assert fs[j + 1] == fs[1..][j];
    } else if k > 0 {
      WrittenFrom(fs[1..], k - 1);
      var j :| 0 <= j < |fs[1..]| && fs[1..][j] == (Written(fs[1..])[k - 1].0, Some(Written(fs[1..])[k - 1].1));
      assert fs[j + 1] == fs[1..][j];
    } else {
      assert fs[0] == (Written(fs)[0].0, Some(Written(fs)[0].1));
    }
  }

  /** When field names are distinct, no name is written twice. */
  lemma {:induction false} WrittenDistinct(fs: seq<(string, Option<Json>)>)
    requires forall j, k :: 0 <= j < k < |fs| ==> fs[j].0 != fs[k].0
    ensures forall j, k :: 0 <= j < k < |Written(fs)| ==> Written(fs)[j].0 != Written(fs)[k].0
  {
    if fs != [] {
      var rest := Written(fs[1..]);
      WrittenDistinct(fs[1..]);
      if fs[0].1.Some? {
        var m := Written(fs);
        assert m == [(fs[0].0, fs[0].1.value)] + rest;
        forall k | 0 <= k < |rest|
          ensures rest[k].0 != fs[0].0
        {
          WrittenFrom(fs[1..], k);
          var j :| 0 <= j < |fs[1..]| && fs[1..][j] == (rest[k].0, Some(rest[k].1));
          assert fs[j + 1] == fs[1..][j];
        }
        forall j, k | 0 <= j < k < |m|
          ensures m[j].0 != m[k].0
        {
          if j == 0 {
            assert m[k] == rest[k - 1];
          } else {
            assert m[j] == rest[j - 1] && m[k] == rest[k - 1];
          }
        }
      } else {
        assert Written(fs) == rest;
      }
    }
  }

  /**
   * The marshalled object has no member other than the twelve claims, and no
   * name appears twice.
   */
  lemma MarshalNames(sa: ServiceAccount)
    ensures forall k :: 0 <= k < |Marshal(sa)| ==> Marshal(sa)[k].0 in FieldNames
    ensures forall j, k :: 0 <= j < k < |Marshal(sa)| ==> Marshal(sa)[j].0 != Marshal(sa)[k].0
  {
    forall k | 0 <= k < |Marshal(sa)|
      ensures Marshal(sa)[k].0 in FieldNames
    {
      WrittenFrom(Fields(sa), k);
    }
    FieldNamesDistinct();
    WrittenDistinct(Fields(sa));
  }

  /** A field that is written leaves at least one member. */
  lemma {:induction false} WrittenNonEmpty(fs: seq<(string, Option<Json>)>, i: nat)
    requires i < |fs| && fs[i].1.Some?
    ensures |Written(fs)| >= 1
  {
    if i > 0 && fs[0].1.None? {
      WrittenNonEmpty(fs[1..], i - 1);
    }
  }

  lemma FieldNamesDistinct()
    ensures forall i, j :: 0 <= i < j < |FieldNames| ==> FieldNames[i] != FieldNames[j]
  {
  }

  /** A key that no field carries is not found among the written members. */
  lemma {:induction false} WrittenAbsent(fs: seq<(string, Option<Json>)>, key: string)
    requires forall i :: 0 <= i < |fs| ==> fs[i].0 != key
    ensures Lookup(Written(fs), key) == None
  {
    if fs != [] {
      var head := match fs[0].1 case None => [] case Some(v) => [(fs[0].0, v)];
      WrittenAbsent(fs[1..], key);
      if head == [] {
        assert Written(fs) == Written(fs[1..]);
      } else {
        assert Written(fs)[1..] == Written(fs[1..]);
      }
    }
  }

  /** When field names are distinct, looking a field's name up yields its value, or nothing when it is left out. */
  lemma {:induction false} WrittenLookup(fs: seq<(string, Option<Json>)>, i: nat)
    requires i < |fs|
    requires forall j, k :: 0 <= j < k < |fs| ==> fs[j].0 != fs[k].0
    ensures Lookup(Written(fs), fs[i].0) == fs[i].1
  {
    var head := match fs[0].1 case None => [] case Some(v) => [(fs[0].0, v)];
    assert Written(fs) == head + Written(fs[1..]);
    if i == 0 {
      if head == [] {
        assert forall j :: 0 <= j < |fs[1..]| ==> fs[1..][j].0 == fs[j + 1].0;
        WrittenAbsent(fs[1..], fs[0].0);
        assert Written(fs) == Written(fs[1..]);
      }
    } else {
      assert fs[1..][i - 1] == fs[i];
      WrittenLookup(fs[1..], i - 1);
      if head != [] {
        assert Written(fs)[0].0 == fs[0].0 != fs[i].0;
        assert Written(fs)[1..] == Written(fs[1..]);
      }
    }
  }

  /** Each field is found in the marshalled object under its name, with the value it was written with. */
  lemma MarshalLookup(sa: ServiceAccount, i: nat)
    requires i < |FieldNames|
    ensures Lookup(Marshal(sa), FieldNames[i]) == Fields(sa)[i].1
  {
    FieldNamesDistinct();
    WrittenLookup(Fields(sa), i);
  }

  /**
   * Which members the marshalled object has: `email` always; every other claim
   * exactly when it is set (non-empty, or a non-nil date).
   */
  lemma MarshalPresence(sa: ServiceAccount)
    ensures Lookup(Marshal(sa), "email") == Some(JString(sa.email))
    ensures Lookup(Marshal(sa), "iss").Some? <==> sa.issuer != ""
    ensures Lookup(Marshal(sa), "sub").Some? <==> sa.subject != ""
    ensures Lookup(Marshal(sa), "aud").Some? <==> sa.audience != []
    ensures Lookup(Marshal(sa), "exp").Some? <==> sa.expiry.Some?
    ensures Lookup(Marshal(sa), "nbf").Some? <==> sa.notBefore.Some?
    ensures Lookup(Marshal(sa), "iat").Some? <==> sa.issuedAt.Some?
    ensures Lookup(Marshal(sa), "jti").Some? <==> sa.id != ""
    ensures Lookup(Marshal(sa), "groups").Some? <==> sa.groups != []
    ensures Lookup(Marshal(sa), "user").Some? <==> sa.user != ""
    ensures Lookup(Marshal(sa), "impersonate_email").Some? <==> sa.impersonateEmail != ""
    ensures Lookup(Marshal(sa), "impersonate_groups").Some? <==> sa.impersonateGroups != []
  {
    MarshalLookup(sa, 0);
    MarshalLookup(sa, 1);
    MarshalLookup(sa, 2);
    MarshalLookup(sa, 3);
    MarshalLookup(sa, 4);
    MarshalLookup(sa, 5);
    MarshalLookup(sa, 6);
    MarshalLookup(sa, 7);
    MarshalLookup(sa, 8);
    MarshalLookup(sa, 9);
    MarshalLookup(sa, 10);
    MarshalLookup(sa, 11);
  }

  /**
   * Reading the marshalled object back gives the record again: nothing is lost,
   * reordered or altered, since a left-out field reads as the zero value it had.
   */
  lemma UnmarshalMarshal(sa: ServiceAccount)
    ensures Unmarshal(Marshal(sa)) == sa
  {
    var m := Marshal(sa);
    MarshalLookup(sa, 0);
    MarshalLookup(sa, 1);
    MarshalLookup(sa, 2);
    MarshalLookup(sa, 3);
    MarshalLookup(sa, 4);
    MarshalLookup(sa, 5);
    MarshalLookup(sa, 6);
    MarshalLookup(sa, 7);
    MarshalLookup(sa, 8);
    MarshalLookup(sa, 9);
    MarshalLookup(sa, 10);
    MarshalLookup(sa, 11);
    if |sa.audience| == 1 {
      assert [sa.audience[0]] == sa.audience;
    }
    assert AsStrings(Lookup(m, "aud")) == sa.audience;
    assert AsStrings(Lookup(m, "groups")) == sa.groups;
    assert AsStrings(Lookup(m, "impersonate_groups")) == sa.impersonateGroups;
    assert AsDate(Lookup(m, "exp")) == sa.expiry;
    assert AsDate(Lookup(m, "nbf")) == sa.notBefore;
    assert AsDate(Lookup(m, "iat")) == sa.issuedAt;
  }
}
