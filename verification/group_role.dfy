/** The four membership roles and the integers they are stored as. */
module GroupRoles {
  import opened Wrappers

  datatype GroupRole = Owner | Admin | Member | Viewer

  /** The enum's underlying value, which is what the `Role` column holds. */
  function RoleCode(r: GroupRole): (c: int)
    ensures 0 <= c <= 3
  {
    match r
    case Owner => 0
    case Admin => 1
    case Member => 2
    case Viewer => 3
  }

  /** Reads a stored role code back; only the four declared values name a role. */
  function RoleFromCode(c: int): (r: Option<GroupRole>)
    ensures r.Some? <==> 0 <= c <= 3
  {
    if c == 0 then Some(Owner)
    else if c == 1 then Some(Admin)
    else if c == 2 then Some(Member)
    else if c == 3 then Some(Viewer)
    else None
  }

  /** Storing a role and reading it back gives the same role. */
  lemma RoleCodeRoundTrip(r: GroupRole)
    ensures RoleFromCode(RoleCode(r)) == Some(r)
  {
  }

  /** Each code in 0..3 names exactly one role, and that role is stored as the code. */
  lemma CodeRoleRoundTrip(c: int)
    requires 0 <= c <= 3
    ensures RoleFromCode(c).Some? && RoleCode(RoleFromCode(c).value) == c
    ensures forall r: GroupRole :: RoleCode(r) == c ==> RoleFromCode(c) == Some(r)
  {
  }

  /** Distinct roles have distinct codes. */
  lemma RoleCodeInjective(a: GroupRole, b: GroupRole)
    ensures RoleCode(a) == RoleCode(b) ==> a == b
  {
  }
}
