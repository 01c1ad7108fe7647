/** The frontend's mapping from the selected user group to the value it
    sends as the `Authorization` header (frontend/src/components/Header.js),
    and how the backend gate treats each value. */
module Header {
  import opened Common
  import opened Authorization

  const DefaultAuthValue: string := "Bearer StandardToken"

  /** `getAuthValue(group)`. */
  function AuthValue(group: string): (v: string)
    ensures group in ["Basic Account-Manager", "Basic Developer", "Basic User"] ==> v == group
    ensures group !in ["Basic Account-Manager", "Basic Developer", "Basic User"]
            ==> v == DefaultAuthValue
  {
    match group
    case "Basic Account-Manager" => "Basic Account-Manager"
    case "Basic Developer" => "Basic Developer"
    case "Basic User" => "Basic User"
    case _ => DefaultAuthValue
  }

  /** The role a header of the form "Basic <role>" names, when the role has
      no surrounding white space. */
  lemma RoleOfRoleName(role: string)
    requires role != [] && !IsSpace(role[0]) && !IsSpace(role[|role| - 1])
    ensures RoleOf(BasicPrefix + role) == role
  {
    var h := BasicPrefix + role;
    RoleOfBasic(h);
    assert h[|BasicPrefix|..] == role;
    assert TrimEnd(role) == role;
    assert TrimStart(role) == role;
  }

  /** A "Basic " header naming a known role passes a gate that allows every
      role, with exactly that role. */
  lemma KnownRolePasses(role: string)
    requires role in Roles
    ensures Authorize(Roles, Some(BasicPrefix + role)) == Pass(role)
  {
    assert role[0] != ' ' && role[|role| - 1] != ' ';
    RoleOfRoleName(role);
  }

  /** Each of the three group values the frontend can select passes the
      gate's "Basic " check and names a known role, so with every role
      allowed it passes with exactly that role. */
  lemma MappedGroupsPass(group: string)
    requires group in ["Basic Account-Manager", "Basic Developer", "Basic User"]
    ensures StartsWith(AuthValue(group), BasicPrefix)
    ensures Authorize(Roles, Some(AuthValue(group))) == Pass(group[|BasicPrefix|..])
  {
    var role := group[|BasicPrefix|..];
    assert AuthValue(group) == group == BasicPrefix + role;
    assert role in Roles;
    KnownRolePasses(role);
  }

  /** Every other group falls back to the bearer value, which the gate
      refuses with 401 whatever the allow-list. */
  lemma DefaultRejected(group: string, allowed: seq<string>)
    requires group !in ["Basic Account-Manager", "Basic Developer", "Basic User"]
    ensures Authorize(allowed, Some(AuthValue(group))) == Reject(401, MsgNoHeader)
  {
    assert DefaultAuthValue[0] == 'B' && DefaultAuthValue[1] == 'e';
    assert BasicPrefix[1] == 'a';
    assert DefaultAuthValue[..|BasicPrefix|][1] != BasicPrefix[1];
  }
}
