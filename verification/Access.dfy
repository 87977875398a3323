/** What a user may do: the permissions of a role, the access row, and the restrictions that explain a denial. */
module Access {
  import opened Words
  import opened SessionStore

  datatype Account = Account(role: Role, active: bool)

  /** One flag a permission; a row says what its user is allowed. */
  datatype AccessRow = AccessRow(buy: bool, chat: bool, sell: bool, handleTicket: bool, manageUser: bool,
                                 manageSystem: bool)

  const FULL_ACCESS := AccessRow(true, true, true, true, true, true)

  /** The current restriction of one user and permission; without an expiry it is permanent. */
  datatype Restriction = Restriction(active: bool, expiresAt: Option<int>)

  /** A user and a permission: the unique key of restrictions. */
  type RestrictionKey = (nat, Permission)

  function RolePermissions(role: Role): seq<Permission> {
    match role
    case RoleUser => [Buy, Chat, Sell]
    case RoleSupport => [Chat, HandleTicket]
    case RoleAdmin => [ManageUser, ManageSystem]
    case RoleOther(_) => []
  }

  predicate Allows(row: AccessRow, p: Permission) {
    match p
    case Buy => row.buy
    case Chat => row.chat
    case Sell => row.sell
    case HandleTicket => row.handleTicket
    case ManageUser => row.manageUser
    case ManageSystem => row.manageSystem
  }

  /** The row with one flag set, all others left as they are. */
  function WithFlag(row: AccessRow, p: Permission, allowed: bool): (r: AccessRow)
    ensures forall q :: Allows(r, q) == (if q == p then allowed else Allows(row, q))
  {
    match p
    case Buy => row.(buy := allowed)
    case Chat => row.(chat := allowed)
    case Sell => row.(sell := allowed)
    case HandleTicket => row.(handleTicket := allowed)
    case ManageUser => row.(manageUser := allowed)
    case ManageSystem => row.(manageSystem := allowed)
  }

  /** A row is what it allows. */
  lemma SameFlags(a: AccessRow, b: AccessRow)
    requires forall p :: Allows(a, p) == Allows(b, p)
    ensures a == b
  {
    assert Allows(a, Buy) == Allows(b, Buy);
    assert Allows(a, Chat) == Allows(b, Chat);
    assert Allows(a, Sell) == Allows(b, Sell);
    assert Allows(a, HandleTicket) == Allows(b, HandleTicket);
    assert Allows(a, ManageUser) == Allows(b, ManageUser);
    assert Allows(a, ManageSystem) == Allows(b, ManageSystem);
  }

  // ---- compiling permissions at sign-in ------------------------------------------------------

  /** An active restriction that had an end, and the end has come. */
  predicate RunOut(restrictions: map<RestrictionKey, Restriction>, user: nat, p: Permission, now: int) {
    && (user, p) in restrictions
    && var r := restrictions[(user, p)];
    && r.active && r.expiresAt.Some? && r.expiresAt.value <= now
  }

  /** The permissions of the role that the call gives back. */
  predicate Lifts(role: Role, row: AccessRow, restrictions: map<RestrictionKey, Restriction>, user: nat,
                  now: int, p: Permission) {
    p in RolePermissions(role) && !Allows(row, p) && RunOut(restrictions, user, p, now)
  }

  /** The rows after one permission has been given back. */
  function Lift(restrictions: map<RestrictionKey, Restriction>, user: nat, p: Permission)
      : map<RestrictionKey, Restriction>
    requires (user, p) in restrictions
  {
    restrictions[(user, p) := restrictions[(user, p)].(active := false)]
  }

  /** The row the sign-in leaves, permission by permission. */
  ghost predicate RowAfter(role: Role, row: AccessRow, restrictions: map<RestrictionKey, Restriction>, user: nat,
                           now: int, after: AccessRow) {
    forall p :: Allows(after, p) == (Allows(row, p) || Lifts(role, row, restrictions, user, now, p))
  }

  /** And the restrictions it leaves: those lifted are no longer active, the others are as they were. */
  ghost predicate RestrictionsAfter(role: Role, row: AccessRow, restrictions: map<RestrictionKey, Restriction>,
                                    user: nat, now: int, after: map<RestrictionKey, Restriction>) {
    && after.Keys == restrictions.Keys
    && forall k :: k in restrictions ==>
         after[k] == if k.0 == user && Lifts(role, row, restrictions, user, now, k.1)
                     then restrictions[k].(active := false) else restrictions[k]
  }

  function LiftedRow(role: Role, row: AccessRow, restrictions: map<RestrictionKey, Restriction>, user: nat,
                     now: int): (after: AccessRow)
    ensures RowAfter(role, row, restrictions, user, now, after)
  {
    AccessRow(row.buy || Lifts(role, row, restrictions, user, now, Buy),
              row.chat || Lifts(role, row, restrictions, user, now, Chat),
              row.sell || Lifts(role, row, restrictions, user, now, Sell),
              row.handleTicket || Lifts(role, row, restrictions, user, now, HandleTicket),
              row.manageUser || Lifts(role, row, restrictions, user, now, ManageUser),
              row.manageSystem || Lifts(role, row, restrictions, user, now, ManageSystem))
  }

  function LiftedRestrictions(role: Role, row: AccessRow, restrictions: map<RestrictionKey, Restriction>, user: nat,
                              now: int): (after: map<RestrictionKey, Restriction>)
    ensures RestrictionsAfter(role, row, restrictions, user, now, after)
  {
    map k | k in restrictions ::
      if k.0 == user && Lifts(role, row, restrictions, user, now, k.1) then restrictions[k].(active := false)
      else restrictions[k]
  }

  function Allowed(ps: seq<Permission>, row: AccessRow): seq<Permission> {
    if ps == [] then []
    else (if Allows(row, ps[0]) then [ps[0]] else []) + Allowed(ps[1..], row)
  }

  lemma {:induction false} AllowedHas(ps: seq<Permission>, row: AccessRow, p: Permission)
    ensures p in Allowed(ps, row) <==> p in ps && Allows(row, p)
  {
    if ps != [] {
      assert ps == [ps[0]] + ps[1..];
      AllowedHas(ps[1..], row, p);
    }
  }

  lemma {:induction false} AllowedSnoc(ps: seq<Permission>, p: Permission, row: AccessRow)
    ensures Allowed(ps + [p], row) == Allowed(ps, row) + (if Allows(row, p) then [p] else [])
  {
    if ps == [] {
      assert ps + [p] == [p];
    } else {
      assert (ps + [p])[1..] == ps[1..] + [p];
      AllowedSnoc(ps[1..], p, row);
    }
  }

  lemma {:induction false} AllAllowed(ps: seq<Permission>, row: AccessRow)
    requires forall p :: p in ps ==> Allows(row, p)
    ensures Allowed(ps, row) == ps
  {
    if ps != [] { AllAllowed(ps[1..], row); }
  }

  /**
   * The sign-in's pass over a role: what the row denies is looked up among the active restrictions, the
   * expired ones are lifted one by one, and what is allowed then is returned in the order of the role.
   */
  method CompileRole(role: Role, row: AccessRow, restrictions: map<RestrictionKey, Restriction>, user: nat, now: int)
    returns (permissions: seq<Permission>, rowAfter: AccessRow, restrictionsAfter: map<RestrictionKey, Restriction>)
    ensures RowAfter(role, row, restrictions, user, now, rowAfter)
    ensures RestrictionsAfter(role, row, restrictions, user, now, restrictionsAfter)
    ensures permissions == Allowed(RolePermissions(role), rowAfter)
  {
    var relevant := RolePermissions(role);
    var denied, allowed := [], {};
    var i := 0;
    while i < |relevant|
      invariant 0 <= i <= |relevant|
      invariant forall p :: p in denied <==> p in relevant[..i] && !Allows(row, p)
      invariant forall p :: p in allowed <==> p in relevant[..i] && Allows(row, p)
      invariant forall a, b :: 0 <= a < b < |denied| ==> denied[a] != denied[b]
    {
      NoRepeats(role);
      if Allows(row, relevant[i]) {
        allowed := allowed + {relevant[i]};
      } else {
        denied := denied + [relevant[i]];
      }
      i := i + 1;
    }
    rowAfter, restrictionsAfter := row, restrictions;
    if denied == [] {
      AllAllowed(relevant, row);
      return relevant, rowAfter, restrictionsAfter;
    }
    rowAfter, restrictionsAfter, allowed := LiftDenied(role, row, restrictions, user, now, denied, allowed);
    permissions := Collect(relevant, allowed, rowAfter);
  }

  lemma NoRepeats(role: Role)
    ensures var ps := RolePermissions(role); forall a, b :: 0 <= a < b < |ps| ==> ps[a] != ps[b]
  {
  }

  predicate Done(restrictions: map<RestrictionKey, Restriction>, user: nat, now: int, denied: seq<Permission>,
                 p: Permission) {
    p in denied && RunOut(restrictions, user, p, now)
  }

  method LiftDenied(role: Role, row: AccessRow, restrictions: map<RestrictionKey, Restriction>, user: nat, now: int,
                    denied: seq<Permission>, allowed: set<Permission>)
    returns (rowAfter: AccessRow, restrictionsAfter: map<RestrictionKey, Restriction>, allowedAfter: set<Permission>)
    requires forall p :: p in denied <==> p in RolePermissions(role) && !Allows(row, p)
    requires forall p :: p in allowed <==> p in RolePermissions(role) && Allows(row, p)
    requires forall a, b :: 0 <= a < b < |denied| ==> denied[a] != denied[b]
    ensures RowAfter(role, row, restrictions, user, now, rowAfter)
    ensures RestrictionsAfter(role, row, restrictions, user, now, restrictionsAfter)
    ensures forall p :: p in allowedAfter <==> p in RolePermissions(role) && Allows(rowAfter, p)
  {
    rowAfter, restrictionsAfter, allowedAfter := row, restrictions, allowed;
    var i := 0;
    while i < |denied|
      invariant 0 <= i <= |denied|
      invariant forall p :: Allows(rowAfter, p) == (Allows(row, p) || Done(restrictions, user, now, denied[..i], p))
      invariant restrictionsAfter.Keys == restrictions.Keys
      invariant forall k :: k in restrictions ==>
        restrictionsAfter[k] == if k.0 == user && Done(restrictions, user, now, denied[..i], k.1)
                                then restrictions[k].(active := false) else restrictions[k]
      invariant forall p :: p in allowedAfter <==> p in allowed || Done(restrictions, user, now, denied[..i], p)
    {
      var p := denied[i];
      assert p !in denied[..i];
      assert denied[..i + 1] == denied[..i] + [p];
      if RunOut(restrictions, user, p, now) && RunOut(restrictionsAfter, user, p, now) {
        restrictionsAfter := Lift(restrictionsAfter, user, p);
        rowAfter := WithFlag(rowAfter, p, true);
        allowedAfter := allowedAfter + {p};
      }
      i := i + 1;
    }
    assert denied[..i] == denied;
  }

  method Collect(relevant: seq<Permission>, allowed: set<Permission>, row: AccessRow)
    returns (permissions: seq<Permission>)
    requires forall p :: p in allowed <==> p in relevant && Allows(row, p)
    ensures permissions == Allowed(relevant, row)
  {
    permissions := [];
    var i := 0;
    while i < |relevant|
      invariant 0 <= i <= |relevant|
      invariant permissions == Allowed(relevant[..i], row)
    {
      AllowedSnoc(relevant[..i], relevant[i], row);
      assert relevant[..i + 1] == relevant[..i] + [relevant[i]];
      if relevant[i] in allowed {
        permissions := permissions + [relevant[i]];
      }
      i := i + 1;
    }
    assert relevant[..i] == relevant;
  }

  // ---- what that amounts to ------------------------------------------------------------------

  /** The rows after a sign-in are determined, so the specification has one outcome. */
  lemma OneOutcome(role: Role, row: AccessRow, restrictions: map<RestrictionKey, Restriction>, user: nat, now: int,
                   a: AccessRow, b: AccessRow, ra: map<RestrictionKey, Restriction>, rb: map<RestrictionKey, Restriction>)
    requires RowAfter(role, row, restrictions, user, now, a) && RowAfter(role, row, restrictions, user, now, b)
    requires RestrictionsAfter(role, row, restrictions, user, now, ra)
    requires RestrictionsAfter(role, row, restrictions, user, now, rb)
    ensures a == b && ra == rb
  {
    SameFlags(a, b);
  }

  /**
   * A permission the row denied is granted exactly when it belongs to the role and its restriction is
   * active, has an end, and the end has come; a permanent, unexpired or missing one grants nothing.
   */
  lemma GrantedExactlyWhen(role: Role, row: AccessRow, restrictions: map<RestrictionKey, Restriction>, user: nat,
                           now: int, after: AccessRow, p: Permission)
    requires RowAfter(role, row, restrictions, user, now, after) && !Allows(row, p)
    ensures p in Allowed(RolePermissions(role), after)
       <==> p in RolePermissions(role) && RunOut(restrictions, user, p, now)
    ensures p !in RolePermissions(role) ==> !Allows(after, p)
  {
    AllowedHas(RolePermissions(role), after, p);
  }

  /** A second sign-in at the same moment finds nothing left to lift. */
  lemma CompilingTwice(role: Role, row: AccessRow, restrictions: map<RestrictionKey, Restriction>, user: nat, now: int,
                       after: AccessRow, restrictionsAfter: map<RestrictionKey, Restriction>,
                       again: AccessRow, restrictionsAgain: map<RestrictionKey, Restriction>)
    requires RowAfter(role, row, restrictions, user, now, after)
    requires RestrictionsAfter(role, row, restrictions, user, now, restrictionsAfter)
    requires RowAfter(role, after, restrictionsAfter, user, now, again)
    requires RestrictionsAfter(role, after, restrictionsAfter, user, now, restrictionsAgain)
    ensures again == after && restrictionsAgain == restrictionsAfter
  {
    forall p ensures !Lifts(role, after, restrictionsAfter, user, now, p) {
      assert Allows(after, p) == (Allows(row, p) || Lifts(role, row, restrictions, user, now, p));
    }
    SameFlags(again, after);
  }
}
