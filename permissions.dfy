/** Role classification of a logged-in user and the shop / salesperson
    filters each role is allowed to apply (lib/auth/permissions.ts). */
module Permissions {
  import opened Common

  /** The authenticated user as the server receives it. */
  datatype User = User(
    id: int,
    userId: string,
    roleIdTotal: Option<int>,
    shopId: Option<int>,
    shopName: Option<string>)

  datatype UserRole = Admin | RegionalManager | Manager | Employee

  /** Login ids that are always administrators. */
  const AdminUserIds: set<string> := {"caoli", "mamingyao", "libaonan"}

  /** The role code that marks a shop manager. */
  const ManagerRoleCode: int := 41

  /** Regional manager login id -> ids of the shops they may see (used for shop lists). */
  const RegionalManagerShopMap: map<string, seq<string>> := map[
    "chenweiwei" := ["3", "30"],
    "chenweiweicp" := ["3", "30"],
    "chenweiweihz" := ["3", "30"]]

  /** Regional manager login id -> names of the shops they may see (used for data queries). */
  const RegionalManagerShopNamesMap: map<string, seq<string>> := map[
    "chenweiwei" := ["杭州留和路店", "苏州诚品店"],
    "chenweiweicp" := ["杭州留和路店", "苏州诚品店"],
    "chenweiweihz" := ["杭州留和路店", "苏州诚品店"]]

  predicate IsRegionalManager(userId: string) {
    userId in RegionalManagerShopMap
  }

  /** `REGIONAL_MANAGER_SHOP_MAP[userId] || []`. */
  function GetRegionalManagerShops(userId: string): (r: seq<string>)
    ensures r != [] <==> IsRegionalManager(userId)
  {
    if userId in RegionalManagerShopMap then RegionalManagerShopMap[userId] else []
  }

  /** `REGIONAL_MANAGER_SHOP_NAMES_MAP[userId] || []`: one name per shop id of the other map. */
  function GetRegionalManagerShopNames(userId: string): (r: seq<string>)
    ensures r != [] <==> IsRegionalManager(userId)
    ensures |r| == |GetRegionalManagerShops(userId)|
    ensures "" !in r
  {
    if userId in RegionalManagerShopNamesMap then RegionalManagerShopNamesMap[userId] else []
  }

  /** First match wins: administrator list, regional-manager map, `shopId === 0`,
      `roleIdTotal === 41`, and otherwise employee. */
  function GetUserRole(user: User): (r: UserRole)
    ensures r == Admin <==> user.userId in AdminUserIds
    ensures r == RegionalManager <==> user.userId !in AdminUserIds && IsRegionalManager(user.userId)
    ensures r == Manager <==>
      && user.userId !in AdminUserIds && !IsRegionalManager(user.userId)
      && user.shopId != Some(0) && user.roleIdTotal == Some(ManagerRoleCode)
  {
    if user.userId in AdminUserIds then Admin
    else if IsRegionalManager(user.userId) then RegionalManager
    else if user.shopId == Some(0) then Employee
    else if user.roleIdTotal == Some(ManagerRoleCode) then Manager
    else Employee
  }

  predicate IsAdmin(user: User) { GetUserRole(user) == Admin }
  predicate IsRegionalManagerRole(user: User) { GetUserRole(user) == RegionalManager }
  predicate IsManager(user: User) { GetUserRole(user) == Manager }
  predicate IsEmployee(user: User) { GetUserRole(user) == Employee }

  /** The administrator list overrides every other field of the user. */
  lemma AdminIgnoresShopAndRole(user: User, shopId: Option<int>, roleIdTotal: Option<int>)
    requires user.userId in AdminUserIds
    ensures IsAdmin(user.(shopId := shopId, roleIdTotal := roleIdTotal))
  {
  }

  /** The classification precedence, case by case. */
  lemma RolePrecedence(user: User)
    ensures user.userId !in AdminUserIds && IsRegionalManager(user.userId) ==> IsRegionalManagerRole(user)
    ensures user.userId !in AdminUserIds && !IsRegionalManager(user.userId) && user.shopId == Some(0) ==>
              IsEmployee(user)
    ensures user.userId !in AdminUserIds && !IsRegionalManager(user.userId) && user.shopId != Some(0) ==>
              (IsManager(user) <==> user.roleIdTotal == Some(ManagerRoleCode))
    ensures !IsAdmin(user) && !IsRegionalManagerRole(user) && user.roleIdTotal != Some(ManagerRoleCode) ==>
              IsEmployee(user)
  {
  }

  /** Every user has exactly one of the four roles. */
  lemma ExactlyOneRole(user: User)
    ensures (if IsAdmin(user) then 1 else 0) + (if IsRegionalManagerRole(user) then 1 else 0)
          + (if IsManager(user) then 1 else 0) + (if IsEmployee(user) then 1 else 0) == 1
  {
  }

  /** The shop a user's data queries are restricted to (`None`: no shop restriction). */
  function GetShopFilter(user: User, requestedShop: Option<string>): (r: Option<string>)
    ensures IsAdmin(user) || IsEmployee(user) ==> r == requestedShop
    ensures IsManager(user) ==> r == OrUndefined(user.shopName)
    ensures IsRegionalManagerRole(user) ==>
      var allowed := GetRegionalManagerShopNames(user.userId);
      && r.Some? && r.value in allowed
      && (Truthy(requestedShop) && requestedShop.value in allowed ==> r == requestedShop)
      && (!(Truthy(requestedShop) && requestedShop.value in allowed) ==> r == Some(allowed[0]))
  {
    match GetUserRole(user)
    case Admin => requestedShop
    case RegionalManager =>
      var allowed := GetRegionalManagerShopNames(user.userId);
      if !Truthy(requestedShop) then
        (if |allowed| > 0 then Some(allowed[0]) else None)
      else if requestedShop.value in allowed then requestedShop
      else if |allowed| > 0 then Some(allowed[0]) else None
    case Manager => OrUndefined(user.shopName)
    case Employee => requestedShop
  }

  /** Applying the shop filter to its own result changes nothing, for every role. */
  lemma ShopFilterIdempotent(user: User, requestedShop: Option<string>)
    ensures GetShopFilter(user, GetShopFilter(user, requestedShop)) == GetShopFilter(user, requestedShop)
  {
  }

  /** A manager's filter does not depend on what was requested. */
  lemma ManagerShopFilterIgnoresRequest(user: User, a: Option<string>, b: Option<string>)
    requires IsManager(user)
    ensures GetShopFilter(user, a) == GetShopFilter(user, b)
  {
  }

  /** The salesperson a user's data queries are restricted to (the login id for employees). */
  function GetSalespersonFilter(user: User, requestedSalesperson: Option<string>): (r: Option<string>)
    ensures IsEmployee(user) ==> r == Some(user.userId)
    ensures !IsEmployee(user) ==> r == requestedSalesperson
  {
    match GetUserRole(user)
    case Employee => Some(user.userId)
    case _ => requestedSalesperson
  }

  /** As `GetSalespersonFilter`, but an employee's login id is translated into
      a display name by `lookup` (the roster query `getUserNameByUserId`). */
  function GetSalespersonFilterAsync(user: User, requestedSalesperson: Option<string>,
                                     lookup: string -> Option<string>): (r: Option<string>)
    ensures !IsEmployee(user) ==> r == requestedSalesperson
    ensures IsEmployee(user) && user.userId == "" ==> r == None
    ensures IsEmployee(user) && user.userId != "" ==> r == OrUndefined(lookup(user.userId))
    ensures IsEmployee(user) ==> r.None? || r.value != ""
  {
    match GetUserRole(user)
    case Employee =>
      if user.userId != "" then OrUndefined(lookup(user.userId)) else None
    case _ => requestedSalesperson
  }

  /** The lookup is consulted only for an employee with a non-empty login id,
      and only at that login id. */
  lemma AsyncLookupOnlyForEmployee(user: User, req: Option<string>,
                                   lookup1: string -> Option<string>, lookup2: string -> Option<string>)
    requires !IsEmployee(user) || user.userId == "" || lookup1(user.userId) == lookup2(user.userId)
    ensures GetSalespersonFilterAsync(user, req, lookup1) == GetSalespersonFilterAsync(user, req, lookup2)
  {
  }

  /** The asynchronous filter translates the login id the synchronous one returns. */
  lemma AsyncTranslatesSync(user: User, req: Option<string>, lookup: string -> Option<string>)
    requires IsEmployee(user)
    ensures var id := GetSalespersonFilter(user, req).value;
            GetSalespersonFilterAsync(user, req, lookup) == if id == "" then None else OrUndefined(lookup(id))
  {
  }

  /** Only a manager is restricted, to the shop named on their account. */
  function CanAccessShop(user: User, shopName: string): (r: bool)
    ensures r <==> !IsManager(user) || user.shopName == Some(shopName)
  {
    match GetUserRole(user)
    case Manager => user.shopName == Some(shopName)
    case _ => true
  }

  /** For a manager, the shops they may access are exactly the one their filter forces. */
  lemma ManagerAccessMatchesFilter(user: User, shopName: string, requestedShop: Option<string>)
    requires IsManager(user) && shopName != ""
    ensures CanAccessShop(user, shopName) <==> GetShopFilter(user, requestedShop) == Some(shopName)
  {
  }

  const AdminLabel: string := "管理员"
  const RegionalManagerLabel: string := "区域经理"
  const ManagerLabel: string := "店长"
  const EmployeeLabel: string := "员工"

  /** The display label of the user's role. */
  function GetUserRoleName(user: User): (r: string)
    ensures r in {AdminLabel, RegionalManagerLabel, ManagerLabel, EmployeeLabel}
    ensures r == AdminLabel <==> IsAdmin(user)
    ensures r == RegionalManagerLabel <==> IsRegionalManagerRole(user)
    ensures r == ManagerLabel <==> IsManager(user)
  {
    match GetUserRole(user)
    case Admin => AdminLabel
    case RegionalManager => RegionalManagerLabel
    case Manager => ManagerLabel
    case Employee => EmployeeLabel
  }

  /** Two users share a label exactly when they share a role. */
  lemma RoleNameDeterminesRole(u1: User, u2: User)
    ensures GetUserRoleName(u1) == GetUserRoleName(u2) <==> GetUserRole(u1) == GetUserRole(u2)
  {
  }
}
