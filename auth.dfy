/** Bearer-token authentication of users and companies: the header parser, the
    comparison with the token stored under the caller's key, and the key formats.
    Signature checking of the token is not modelled: its decoded claims are given. */
module Auth {
  import opened Base
  import opened Uuids

  /** Python's `s.split(" ")`: the fields between single spaces, empty ones included. */
  function Split(s: string): (r: seq<string>)
    ensures |r| >= 1
    decreases |s|
  {
    if s == [] then [""]
    else
      var rest := Split(s[1..]);
      if s[0] == ' ' then [""] + rest else [[s[0]] + rest[0]] + rest[1..]
  }

  predicate NoSpace(s: string)
  {
    forall i :: 0 <= i < |s| ==> s[i] != ' '
  }

  const Bearer := "Bearer "

  /** `extract_token`: a missing header, or one not starting with "Bearer ", is
      rejected with 401; otherwise the second space-separated field is the token. */
  function ExtractToken(header: Option<string>): (r: Result<string>)
    ensures r.Err? <==> header.None? || !StartsWith(header.value, Bearer)
    ensures r.Err? ==> r.error == Unauthorized
    // the token is the run of non-spaces right after "Bearer ", ending at a space or at the end
    ensures r.Ok? ==> NoSpace(r.value) && StartsWith(header.value[7..], r.value) &&
                      (|header.value| == 7 + |r.value| || header.value[7 + |r.value|] == ' ')
  {
    if header.None? || header.value == "" || !StartsWith(header.value, Bearer) then Err(Unauthorized)
    else
      SplitAfterBearer(header.value);
      Ok(Split(header.value)[1])
  }

  lemma {:induction false} SplitHeadField(s: string)
    ensures NoSpace(Split(s)[0]) && StartsWith(s, Split(s)[0])
    ensures |s| == |Split(s)[0]| || s[|Split(s)[0]|] == ' '
    decreases |s|
  {
    if s != [] {
      SplitHeadField(s[1..]);
      if s[0] != ' ' {
        var head := Split(s[1..])[0];
        assert Split(s)[0] == [s[0]] + head;
        assert s[..|head| + 1] == [s[0]] + s[1..][..|head|];
        assert |s| == |head| + 1 || s[|head| + 1] == s[1..][|head|];
      }
    }
  }

  lemma {:induction false} SplitWordSpace(w: string, s: string)
    requires NoSpace(w)
    ensures Split(w + " " + s) == [w] + Split(s)
    decreases |w|
  {
    if w == [] {
      assert w + " " + s == [' '] + s;
      assert ([' '] + s)[1..] == s;
    } else {
      var t := w + " " + s;
      assert t[1..] == w[1..] + " " + s;
      SplitWordSpace(w[1..], s);
      assert [w[0]] + w[1..] == w;
    }
  }

  lemma SplitAfterBearer(h: string)
    requires StartsWith(h, Bearer)
    ensures |Split(h)| >= 2 && Split(h)[1] == Split(h[7..])[0]
    ensures NoSpace(Split(h)[1]) && StartsWith(h[7..], Split(h)[1])
    ensures |h| == 7 + |Split(h)[1]| || h[7 + |Split(h)[1]|] == ' '
  {
    assert h == "Bearer" + " " + h[7..];
    SplitWordSpace("Bearer", h[7..]);
    SplitHeadField(h[7..]);
  }

  /** A header built from a token without spaces yields that token. */
  lemma ExtractTokenRoundTrip(t: string)
    requires NoSpace(t)
    ensures ExtractToken(Some(Bearer + t)) == Ok(t)
  {
    var h := Bearer + t;
    assert h[7..] == t;
    assert StartsWith(h, Bearer);
    SplitAfterBearer(h);
    SplitHeadField(t);
    var f := Split(t)[0];
    assert t[..|f|] == f;
    assert |f| == |t|;
    assert f == t;
    assert Split(h)[1] == t;
  }

  /** "Bearer " with nothing after it yields the empty token rather than an error. */
  lemma ExtractTokenBareScheme()
    ensures ExtractToken(Some(Bearer)) == Ok("")
  {
    ExtractTokenRoundTrip("");
    assert Bearer + "" == Bearer;
  }

  /** `verify_token_in_redis`: a missing or empty stored token, or one different from
      the presented token, is rejected with 401. */
  function VerifyToken(stored: Option<string>, token: string): (r: Result<()>)
    ensures r.Ok? <==> stored == Some(token) && token != ""
    ensures r.Err? ==> r.error == Unauthorized
  {
    if stored.None? || stored.value == "" || stored.value != token then Err(Unauthorized) else Ok(())
  }

  function UserTokenKey(id: Uuid): (k: string)
    ensures |k| == 47
  {
    "user:" + UuidToString(id) + ":token"
  }

  function CompanyTokenKey(id: string): (k: string)
    ensures |k| == |id| + 14
  {
    "company:" + id + ":token"
  }

  lemma UserTokenKeyInjective(a: Uuid, b: Uuid)
    requires UserTokenKey(a) == UserTokenKey(b)
    ensures a == b
  {
    assert UserTokenKey(a)[5..41] == UuidToString(a);
    assert UserTokenKey(b)[5..41] == UuidToString(b);
    UuidToStringInjective(a, b);
  }

  lemma CompanyTokenKeyInjective(a: string, b: string)
    requires CompanyTokenKey(a) == CompanyTokenKey(b)
    ensures a == b
  {
    assert CompanyTokenKey(a)[8..8 + |a|] == a;
    assert CompanyTokenKey(b)[8..8 + |b|] == b;
  }

  /** A user's key and a company's key are never the same Redis entry. */
  lemma TokenKeysDisjoint(u: Uuid, c: string)
    ensures UserTokenKey(u) != CompanyTokenKey(c)
  {
    assert UserTokenKey(u)[0] == 'u';
    assert CompanyTokenKey(c)[0] == 'c';
  }

  /** The claims of a decoded token, or None when the signature or expiry check fails. */
  type Decoder = string -> Option<map<string, string>>

  /** `get_current_user`: the header's token must decode, carry a `user_id` claim that
      parses as a UUID, equal the token stored under `user:{id}:token`, and name an
      existing user; every failure is 401. */
  function CurrentUser(header: Option<string>, decode: Decoder, redis: map<string, string>,
                       users: set<Uuid>): (r: Result<Uuid>)
    ensures r.Err? ==> r.error == Unauthorized
    ensures r.Ok? <==>
      ExtractToken(header).Ok? &&
      var token := ExtractToken(header).value;
      decode(token).Some? && "user_id" in decode(token).value &&
      ParseUuid(decode(token).value["user_id"]).Some? &&
      var id := ParseUuid(decode(token).value["user_id"]).value;
      UserTokenKey(id) in redis && redis[UserTokenKey(id)] == token && token != "" &&
      id in users
    ensures r.Ok? ==> r.value in users && UserTokenKey(r.value) in redis &&
                      redis[UserTokenKey(r.value)] == ExtractToken(header).value
  {
    var t := ExtractToken(header);
    if t.Err? then Err(t.error)
    else
      var claims := decode(t.value);
      if claims.None? || "user_id" !in claims.value then Err(Unauthorized)
      else
        var id := ParseUuid(claims.value["user_id"]);
        if id.None? then Err(Unauthorized)
        else
          var key := UserTokenKey(id.value);
          var stored := if key in redis then Some(redis[key]) else None;
          var v := VerifyToken(stored, t.value);
          if v.Err? then Err(v.error)
          else if id.value !in users then Err(Unauthorized)
          else Ok(id.value)
  }

  /** `get_current_company`: as for users, with the `company_id` claim used verbatim in
      the key `company:{id}:token`; the company must exist. */
  function CurrentCompany(header: Option<string>, decode: Decoder, redis: map<string, string>,
                          companies: set<Uuid>): (r: Result<Uuid>)
    ensures r.Err? ==> r.error == Unauthorized
    ensures r.Ok? ==>
      ExtractToken(header).Ok? &&
      var token := ExtractToken(header).value;
      decode(token).Some? && "company_id" in decode(token).value &&
      var key := CompanyTokenKey(decode(token).value["company_id"]);
      key in redis && redis[key] == token && token != "" &&
      ParseUuid(decode(token).value["company_id"]) == Some(r.value) && r.value in companies
    // and the company is returned whenever every step passes
    ensures (ExtractToken(header).Ok? &&
             var token := ExtractToken(header).value;
             decode(token).Some? && "company_id" in decode(token).value &&
             var cid := decode(token).value["company_id"];
             CompanyTokenKey(cid) in redis && redis[CompanyTokenKey(cid)] == token && token != "" &&
             ParseUuid(cid).Some? && ParseUuid(cid).value in companies) ==> r.Ok?
  {
    var t := ExtractToken(header);
    if t.Err? then Err(t.error)
    else
      var claims := decode(t.value);
      if claims.None? || "company_id" !in claims.value then Err(Unauthorized)
      else
        var cid := claims.value["company_id"];
        var key := CompanyTokenKey(cid);
        var stored := if key in redis then Some(redis[key]) else None;
        var v := VerifyToken(stored, t.value);
        if v.Err? then Err(v.error)
        else
          var id := ParseUuid(cid);
          if id.None? || id.value !in companies then Err(Unauthorized)
          else Ok(id.value)
  }
}
