/** The role gate every SQLite-backed route runs before its handler
    (backend/Authorization/Authorization.js). The credential is the raw
    `Authorization` header; the role is its text after "Basic ". */
module Authorization {
  import opened Common

  /** The roles the gate knows. */
  const Roles: seq<string> := ["Account-Manager", "Developer", "User"]

  const BasicPrefix: string := "Basic "

  const MsgNoHeader: string := "Unauthorized: Kein gültiger Authorization-Header"
  const MsgUnknownRole: string := "Forbidden: Unbekannte Rolle"
  const MsgNotAllowed: string := "Forbidden: Unzureichende Berechtigungen"

  /** The gate either lets the request through, recording the caller's role
      (`request.userRole`), or replies itself. */
  datatype Decision =
    | Pass(role: string)
    | Reject(code: int, message: string)

  /** The role named by a header: the first "Basic " removed, then trimmed. */
  function RoleOf(header: string): string
  {
    Trim(ReplaceFirst(header, BasicPrefix, ""))
  }

  /** A header that passes the "Basic " check names the text after that
      prefix, trimmed. */
  lemma RoleOfBasic(header: string)
    requires StartsWith(header, BasicPrefix)
    ensures RoleOf(header) == Trim(header[|BasicPrefix|..])
  {
    ReplacePrefix(header, BasicPrefix);
  }

  /** `authorize(allowedRoles)` applied to a request whose header is
      `header` (`None` when the request has none). */
  function Authorize(allowedRoles: seq<string>, header: Option<string>): (d: Decision)
    // 401 exactly when the header is missing or does not start with "Basic "
    ensures d == Reject(401, MsgNoHeader)
            <==> header.None? || !StartsWith(header.value, BasicPrefix)
    // an unknown role is refused whatever the allow-list says
    ensures d == Reject(403, MsgUnknownRole)
            <==> header.Some? && StartsWith(header.value, BasicPrefix)
                 && RoleOf(header.value) !in Roles
    ensures d == Reject(403, MsgNotAllowed)
            <==> header.Some? && StartsWith(header.value, BasicPrefix)
                 && RoleOf(header.value) in Roles && RoleOf(header.value) !in allowedRoles
    // the request passes, with that role, exactly when the role is known and allowed
    ensures d.Pass? <==> header.Some? && StartsWith(header.value, BasicPrefix)
                         && RoleOf(header.value) in Roles && RoleOf(header.value) in allowedRoles
    ensures d.Pass? ==> d.role == Trim(header.value[|BasicPrefix|..]) && d.role in Roles
  {
    if header.None? || header.value == "" || !StartsWith(header.value, BasicPrefix) then
      Reject(401, MsgNoHeader)
    else
      var role := RoleOf(header.value);
      RoleOfBasic(header.value);
      if role !in Roles then Reject(403, MsgUnknownRole)
      else if role !in allowedRoles then Reject(403, MsgNotAllowed)
      else Pass(role)
  }

  /** Enlarging the allow-list never turns a pass into a refusal, and the
      role passed on stays the same. */
  lemma AuthorizeMonotonic(allowed: seq<string>, larger: seq<string>, header: Option<string>)
    requires forall r :: r in allowed ==> r in larger
    requires Authorize(allowed, header).Pass?
    ensures Authorize(larger, header) == Authorize(allowed, header)
  {
  }

  /** The 401 check comes first: a request without a "Basic " header gets 401
      whatever the allow-list, and never a 403. */
  lemma MissingHeaderFirst(allowed: seq<string>, header: Option<string>)
    requires header.None? || !StartsWith(header.value, BasicPrefix)
    ensures Authorize(allowed, header).code == 401
  {
  }
}
