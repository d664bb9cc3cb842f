/** The two configuration helpers of the script: `require` and the tenant default. */
module Config {
  import opened Wrappers
  import opened Text

  /**
   * The `SystemExit` raised by `require`: a required setting is missing; the
   * message names the setting and, when one is given, the environment
   * variable that could have supplied it.
   */
  datatype Missing = Missing(what: string, envName: Option<string>)

  /**
   * `require(v, what, env_name)`: the value stripped of surrounding
   * whitespace, or a failure naming the setting when nothing but whitespace
   * (or nothing at all) was given.  On success the value is the part of the
   * input between its leading and its trailing whitespace: it is non-empty,
   * does not begin or end with whitespace, and everything cut off on either
   * side is whitespace, which determines it.
   */
  function Require(v: Option<string>, what: string, envName: Option<string>): (r: Result<string, Missing>)
    ensures r.Success? <==> exists i :: 0 <= i < |v.GetOr("")| && !IsSpace(v.GetOr("")[i])
    ensures var w := v.GetOr("");
      r.Success? ==>
        && r.value != "" && IsStripped(r.value)
        && Lead(w) + |r.value| <= |w| && r.value == w[Lead(w)..Lead(w) + |r.value|]
        && (forall i :: 0 <= i < Lead(w) ==> IsSpace(w[i]))
        && (forall i :: Lead(w) + |r.value| <= i < |w| ==> IsSpace(w[i]))
    ensures r.Failure? ==> r.error == Missing(what, envName)
  {
    var s := Strip(v.GetOr(""));
    StripSlice(v.GetOr(""));
    if s == "" then
      assert forall i :: 0 <= i < |v.GetOr("")| ==> IsSpace(v.GetOr("")[i]) by {
        var w := v.GetOr("");
        forall i | 0 <= i < |w| ensures IsSpace(w[i]) {
          if i >= Lead(w) { assert Lead(w) + |s| <= i; }
        }
      }
      Failure(Missing(what, envName))
    else
      assert !IsSpace(v.GetOr("")[Lead(v.GetOr(""))]);
      Success(s)
  }

  /** Requiring an already accepted value accepts it unchanged. */
  lemma RequireIdempotent(v: Option<string>, what: string, envName: Option<string>)
    requires Require(v, what, envName).Success?
    ensures Require(Some(Require(v, what, envName).value), what, envName) == Require(v, what, envName)
  {
    StripIdempotent(v.GetOr(""));
  }

  const CommonTenant := "common"

  /**
   * `(tenant_id or "").strip() or "common"`: the stripped tenant, or the
   * multi-tenant default when the tenant is absent or blank.
   */
  function TenantOrCommon(tenant: Option<string>): (r: string)
    ensures r != "" && IsStripped(r)
    ensures Require(tenant, "tenant", None).Success? ==> r == Require(tenant, "tenant", None).value
    ensures Require(tenant, "tenant", None).Failure? ==> r == CommonTenant
  {
    var t := Strip(tenant.GetOr(""));
    if t == "" then CommonTenant else t
  }

  /** Defaulting twice is defaulting once. */
  lemma TenantOrCommonIdempotent(tenant: Option<string>)
    ensures TenantOrCommon(Some(TenantOrCommon(tenant))) == TenantOrCommon(tenant)
  {
    StripStripped(TenantOrCommon(tenant));
  }
}
