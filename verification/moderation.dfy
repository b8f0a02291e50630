/**
 The admin panel's state: the demo login gate and the list handlers for
 moderating items, users and categories. Each handler rewrites one list by a
 map or a filter keyed on the element id; no status transition is checked.
 */
module Moderation {
  import opened Options
  import opened Lists

  const AdminUsername: string := "admin"
  const AdminPassword: string := "password"

  /** Status values the users tab's edit button sends. */
  const Active: string := "active"
  const Suspended: string := "suspended"

  datatype LoginForm = LoginForm(username: string, password: string)

  datatype ModItem = ModItem(
    id: int, title: string, user: string, category: string,
    status: string, condition: string, points: int)

  datatype Member = Member(
    id: int, name: string, email: string, status: string, swaps: int, joinDate: string)

  datatype Category = Category(id: int, name: string, itemCount: int, active: bool)

  datatype Panel = Panel(
    isAuthenticated: bool,
    loginForm: LoginForm,
    items: seq<ModItem>,
    members: seq<Member>,
    categories: seq<Category>)

  const EmptyForm: LoginForm := LoginForm("", "")

  /** The alert a rejected login shows. */
  const InvalidCredentials: string := "Invalid credentials. Use admin/password for demo."

  // ---------------------------------------------------------------------------
  // Login gate

  predicate ValidCredentials(f: LoginForm)
  {
    f.username == AdminUsername && f.password == AdminPassword
  }

  /** Typing into the username field. */
  function EditUsername(p: Panel, value: string): (r: Panel)
    ensures r.loginForm.username == value && r.loginForm.password == p.loginForm.password
    ensures r.(loginForm := p.loginForm) == p
  {
    p.(loginForm := p.loginForm.(username := value))
  }

  /** Typing into the password field. */
  function EditPassword(p: Panel, value: string): (r: Panel)
    ensures r.loginForm.password == value && r.loginForm.username == p.loginForm.username
    ensures r.(loginForm := p.loginForm) == p
  {
    p.(loginForm := p.loginForm.(password := value))
  }

  /** `handleLogin`: authenticates on the demo credentials, otherwise only alerts. */
  function HandleLogin(p: Panel): (r: Panel)
    ensures ValidCredentials(p.loginForm) ==> r.isAuthenticated
    ensures !ValidCredentials(p.loginForm) ==> r == p
    ensures r.(isAuthenticated := p.isAuthenticated) == p
  {
    if ValidCredentials(p.loginForm) then p.(isAuthenticated := true) else p
  }

  /** The alert `handleLogin` raises: none on the demo credentials, the rejection message otherwise. */
  function LoginAlert(p: Panel): (a: Option<string>)
    ensures a.None? ==> HandleLogin(p).isAuthenticated
    ensures !p.isAuthenticated ==> (a.Some? <==> !HandleLogin(p).isAuthenticated)
    ensures a.Some? ==> a.value == InvalidCredentials && HandleLogin(p) == p
  {
    if ValidCredentials(p.loginForm) then None else Some(InvalidCredentials)
  }

  /** `handleLogout`: drops authentication and clears both form fields. */
  function HandleLogout(p: Panel): (r: Panel)
    ensures !r.isAuthenticated && r.loginForm == EmptyForm
    ensures r.items == p.items && r.members == p.members && r.categories == p.categories
  {
    p.(isAuthenticated := false, loginForm := EmptyForm)
  }

  /** From a signed-out panel, login succeeds exactly on the demo credentials. */
  lemma LoginIffCredentials(p: Panel)
    requires !p.isAuthenticated
    ensures HandleLogin(p).isAuthenticated <==> p.loginForm.username == "admin" && p.loginForm.password == "password"
  {
  }

  /** After a logout the cleared form cannot log back in until the credentials are typed again. */
  lemma LogoutThenLoginFails(p: Panel)
    ensures !HandleLogin(HandleLogout(p)).isAuthenticated
  {
  }

  /** Typing the demo credentials after a logout logs back in, with the lists untouched. */
  lemma RetypeCredentialsLogsIn(p: Panel)
    ensures var q := HandleLogin(EditPassword(EditUsername(HandleLogout(p), "admin"), "password"));
      q.isAuthenticated && q.items == p.items && q.members == p.members && q.categories == p.categories
  {
  }

  // ---------------------------------------------------------------------------
  // Items

  /** `handleItemAction(itemId, action)`: every item with that id takes `action` as its status. */
  function HandleItemAction(items: seq<ModItem>, itemId: int, action: string): (r: seq<ModItem>)
    ensures |r| == |items|
    ensures forall i :: 0 <= i < |items| && items[i].id == itemId ==> r[i] == items[i].(status := action)
    ensures forall i :: 0 <= i < |items| && items[i].id != itemId ==> r[i] == items[i]
  {
    MapWhere(items, (x: ModItem) => x.id == itemId, (x: ModItem) => x.(status := action))
  }

  /** After an action every item with the id carries it, and only the status field moved. */
  lemma ItemActionEffect(items: seq<ModItem>, itemId: int, action: string)
    ensures var r := HandleItemAction(items, itemId, action);
      && (forall i :: 0 <= i < |r| && r[i].id == itemId ==> r[i].status == action)
      && (forall i :: 0 <= i < |r| ==> r[i].(status := items[i].status) == items[i])
  {
  }

  /** Any status may be sent from any status: the second action simply overwrites the first. */
  lemma ItemActionLastWins(items: seq<ModItem>, itemId: int, a: string, b: string)
    ensures HandleItemAction(HandleItemAction(items, itemId, a), itemId, b) == HandleItemAction(items, itemId, b)
  {
  }

  /** `handleDeleteItem(itemId)`: drops exactly the items with that id. */
  function HandleDeleteItem(items: seq<ModItem>, itemId: int): (r: seq<ModItem>)
    ensures forall x :: x in r <==> x in items && x.id != itemId
    ensures forall i :: 0 <= i < |r| ==> r[i].id != itemId
    ensures |r| <= |items|
  {
    Filter(items, (x: ModItem) => x.id != itemId)
  }

  /** The survivors keep their order, and the count drops by the number of items with the id. */
  lemma DeleteItemKeepsOrder(items: seq<ModItem>, itemId: int)
    ensures IsSubsequence(HandleDeleteItem(items, itemId), items)
    ensures |HandleDeleteItem(items, itemId)| == |items| - CountWhere(items, (x: ModItem) => x.id == itemId)
  {
    FilterIsSubsequence(items, (x: ModItem) => x.id != itemId);
    FilterLength(items, (x: ModItem) => x.id != itemId);
    CountComplement(items, (x: ModItem) => x.id != itemId, (x: ModItem) => x.id == itemId);
  }

  lemma {:induction false} CountComplement<T>(xs: seq<T>, p: T -> bool, q: T -> bool)
    requires forall x :: p(x) <==> !q(x)
    ensures CountWhere(xs, p) == |xs| - CountWhere(xs, q)
    decreases |xs|
  {
    if |xs| > 0 {
      CountComplement(xs[1..], p, q);
    }
  }

  /** Deleting an id that is not listed leaves the list as it was. */
  lemma DeleteAbsentItem(items: seq<ModItem>, itemId: int)
    requires forall i :: 0 <= i < |items| ==> items[i].id != itemId
    ensures HandleDeleteItem(items, itemId) == items
  {
    FilterKeepsAll(items, (x: ModItem) => x.id != itemId);
  }

  /** Deleting after an action on the same id is the same as deleting. */
  lemma {:induction false} DeleteErasesAction(items: seq<ModItem>, itemId: int, action: string)
    ensures HandleDeleteItem(HandleItemAction(items, itemId, action), itemId) == HandleDeleteItem(items, itemId)
    decreases |items|
  {
    var keep := (x: ModItem) => x.id != itemId;
    var acted := HandleItemAction(items, itemId, action);
    if |items| > 0 {
      DeleteErasesAction(items[1..], itemId, action);
      assert acted[1..] == HandleItemAction(items[1..], itemId, action);
      assert Filter(acted, keep) == (if keep(acted[0]) then [acted[0]] else []) + Filter(acted[1..], keep);
    }
  }

  // ---------------------------------------------------------------------------
  // Users

  /** `handleUserAction(userId, action)`: every user with that id takes `action` as its status. */
  function HandleUserAction(members: seq<Member>, userId: int, action: string): (r: seq<Member>)
    ensures |r| == |members|
    ensures forall i :: 0 <= i < |members| && members[i].id == userId ==> r[i] == members[i].(status := action)
    ensures forall i :: 0 <= i < |members| && members[i].id != userId ==> r[i] == members[i]
  {
    MapWhere(members, (m: Member) => m.id == userId, (m: Member) => m.(status := action))
  }

  /** `handleDeleteUser(userId)`: drops exactly the users with that id. */
  function HandleDeleteUser(members: seq<Member>, userId: int): (r: seq<Member>)
    ensures forall m :: m in r <==> m in members && m.id != userId
    ensures forall i :: 0 <= i < |r| ==> r[i].id != userId
    ensures |r| == |members| - CountWhere(members, (m: Member) => m.id == userId)
  {
    FilterLength(members, (m: Member) => m.id != userId);
    CountComplement(members, (m: Member) => m.id != userId, (m: Member) => m.id == userId);
    Filter(members, (m: Member) => m.id != userId)
  }

  /** The surviving users keep their order, and every user with another id survives, duplicates included. */
  lemma DeleteUserKeepsOrder(members: seq<Member>, userId: int)
    ensures IsSubsequence(HandleDeleteUser(members, userId), members)
    ensures |HandleDeleteUser(members, userId)| == |members| - CountWhere(members, (m: Member) => m.id == userId)
  {
    FilterIsSubsequence(members, (m: Member) => m.id != userId);
  }

  /** The status the edit button sends: suspend an active user, activate anyone else. */
  function EditTarget(status: string): (t: string)
    ensures t == Suspended || t == Active
    ensures t == Suspended <==> status == Active
  {
    if status == Active then Suspended else Active
  }

  /** The edit button on row `m`. */
  function EditUser(members: seq<Member>, m: Member): (r: seq<Member>)
    ensures |r| == |members|
    ensures forall i :: 0 <= i < |members| && members[i].id == m.id ==>
              r[i] == members[i].(status := if m.status == Active then Suspended else Active)
    ensures forall i :: 0 <= i < |members| && members[i].id != m.id ==> r[i] == members[i]
  {
    HandleUserAction(members, m.id, EditTarget(m.status))
  }

  /** The button toggles between active and suspended; any other status (such as pending) becomes active. */
  lemma EditToggles(status: string)
    ensures status == Active || status == Suspended ==> EditTarget(EditTarget(status)) == status
    ensures status != Active ==> EditTarget(status) == Active
    ensures EditTarget(status) != status
  {
  }

  /** Pressing the edit button on a listed row changes that row's status, and no other row. */
  lemma EditUserEffect(members: seq<Member>, k: int)
    requires 0 <= k < |members|
    ensures var r := EditUser(members, members[k]);
      && r[k].status == EditTarget(members[k].status)
      && r[k].status != members[k].status
      && (forall i :: 0 <= i < |members| && members[i].id != members[k].id ==> r[i] == members[i])
  {
  }

  // ---------------------------------------------------------------------------
  // Categories

  /** `handleCategoryToggle(categoryId)`: flips `active` on the categories with that id. */
  function HandleCategoryToggle(categories: seq<Category>, categoryId: int): (r: seq<Category>)
    ensures |r| == |categories|
    ensures forall i :: 0 <= i < |categories| && categories[i].id == categoryId ==>
              r[i].active == !categories[i].active && r[i].(active := categories[i].active) == categories[i]
    ensures forall i :: 0 <= i < |categories| && categories[i].id != categoryId ==> r[i] == categories[i]
  {
    MapWhere(categories, (c: Category) => c.id == categoryId, (c: Category) => c.(active := !c.active))
  }

  /** Toggling the same category twice restores the list. */
  lemma CategoryToggleTwice(categories: seq<Category>, categoryId: int)
    ensures HandleCategoryToggle(HandleCategoryToggle(categories, categoryId), categoryId) == categories
  {
  }

  /** Toggles of different categories commute. */
  lemma CategoryTogglesCommute(categories: seq<Category>, a: int, b: int)
    ensures HandleCategoryToggle(HandleCategoryToggle(categories, a), b)
         == HandleCategoryToggle(HandleCategoryToggle(categories, b), a)
  {
  }
}
