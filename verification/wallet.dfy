/**
 The signed-in user's profile and points wallet as the `useAuth` hook keeps it:
 syncing the profile from the identity provider into the stored user document,
 the defaults of a new user, the signed points update with its separate
 earned/spent counters, the affordability check and the shallow stats patch.
 Store reads and writes are not performed here: their outcome (an error
 message, or none for success) is a parameter.
 */
module Wallet {
  import opened Options

  /** Points a new user starts with. */
  const StartingPoints: int := 100

  /** The message `updateUserPoints` records when the balance would go negative. */
  const InsufficientPoints: string := "Insufficient points"

  /** The nested `stats` object; each counter may be missing from the document. */
  datatype Stats = Stats(
    itemsListed: Option<int>,
    itemsSwapped: Option<int>,
    pointsEarned: Option<int>,
    pointsSpent: Option<int>)

  /** The user document, as far as the wallet and the profile sync read it. */
  datatype User = User(
    id: string,
    email: string,
    name: string,
    firstName: string,
    lastName: string,
    imageUrl: string,
    points: int,
    totalSwaps: int,
    totalListings: int,
    stats: Stats)

  /** What the identity provider reports about the signed-in account. */
  datatype ClerkUser = ClerkUser(
    firstEmail: Option<string>,   // the first entry of `emailAddresses`, if any
    fullName: Option<string>,
    firstName: Option<string>,
    lastName: Option<string>,
    imageUrl: Option<string>)

  /** The provider's session as the hook sees it. */
  datatype Session = Session(
    isLoaded: bool,
    isSignedIn: bool,
    userId: Option<string>,
    clerk: Option<ClerkUser>)

  /** The hook's state: the session plus its `user` and `error` state variables. */
  datatype Hook = Hook(session: Session, user: Option<User>, error: Option<string>)

  /** `n || 0` for a counter that may be missing. */
  function OrZero(n: Option<int>): int
  {
    if n.Some? then n.value else 0
  }

  /** JavaScript truthiness of an optional string: present and non-empty (`ListingForm.Truthy` is the same rule over form values). */
  predicate Truthy(s: Option<string>)
  {
    s.Some? && s.value != ""
  }

  /** `s || fallback` for an optional string. */
  function OrElse(s: Option<string>, fallback: string): string
  {
    if Truthy(s) then s.value else fallback
  }

  /** The wallet is balanced when the balance is what was earned minus what was spent. */
  predicate Balanced(u: User)
  {
    u.points == OrZero(u.stats.pointsEarned) - OrZero(u.stats.pointsSpent)
  }

  // ---------------------------------------------------------------------------
  // Profile sync

  /** The document written for a user seen for the first time. */
  function NewUser(userId: string, clerk: ClerkUser): (u: User)
    ensures u.id == userId
    ensures u.points == StartingPoints && u.totalSwaps == 0 && u.totalListings == 0
    ensures u.stats == Stats(Some(0), Some(0), Some(StartingPoints), Some(0))
    ensures Balanced(u) && u.points >= 0
    ensures u.email == OrElse(clerk.firstEmail, "") && u.name == OrElse(clerk.fullName, "")
    ensures u.firstName == OrElse(clerk.firstName, "") && u.lastName == OrElse(clerk.lastName, "")
    ensures u.imageUrl == OrElse(clerk.imageUrl, "")
  {
    User(userId,
         OrElse(clerk.firstEmail, ""), OrElse(clerk.fullName, ""),
         OrElse(clerk.firstName, ""), OrElse(clerk.lastName, ""),
         OrElse(clerk.imageUrl, ""),
         StartingPoints, 0, 0,
         Stats(Some(0), Some(0), Some(StartingPoints), Some(0)))
  }

  /** The stored document overlaid with the profile fields the provider reports. */
  function MergeProfile(stored: User, clerk: ClerkUser): (u: User)
    ensures Truthy(clerk.firstEmail) ==> u.email == clerk.firstEmail.value
    ensures !Truthy(clerk.firstEmail) ==> u.email == stored.email
    ensures Truthy(clerk.fullName) ==> u.name == clerk.fullName.value
    ensures !Truthy(clerk.fullName) ==> u.name == stored.name
    ensures Truthy(clerk.firstName) ==> u.firstName == clerk.firstName.value
    ensures !Truthy(clerk.firstName) ==> u.firstName == stored.firstName
    ensures Truthy(clerk.lastName) ==> u.lastName == clerk.lastName.value
    ensures !Truthy(clerk.lastName) ==> u.lastName == stored.lastName
    ensures Truthy(clerk.imageUrl) ==> u.imageUrl == clerk.imageUrl.value
    ensures !Truthy(clerk.imageUrl) ==> u.imageUrl == stored.imageUrl
    ensures u.id == stored.id && u.points == stored.points && u.stats == stored.stats
    ensures u.totalSwaps == stored.totalSwaps && u.totalListings == stored.totalListings
  {
    stored.(email := OrElse(clerk.firstEmail, stored.email),
            name := OrElse(clerk.fullName, stored.name),
            firstName := OrElse(clerk.firstName, stored.firstName),
            lastName := OrElse(clerk.lastName, stored.lastName),
            imageUrl := OrElse(clerk.imageUrl, stored.imageUrl))
  }

  /** Merging the same provider data a second time changes nothing more. */
  lemma MergeIdempotent(stored: User, clerk: ClerkUser)
    ensures MergeProfile(MergeProfile(stored, clerk), clerk) == MergeProfile(stored, clerk)
  {
  }

  /** A merge never touches the wallet, so a balanced wallet stays balanced. */
  lemma MergeKeepsWallet(stored: User, clerk: ClerkUser)
    ensures Balanced(MergeProfile(stored, clerk)) <==> Balanced(stored)
  {
  }

  /** The keys of the sync update, in the order `Object.keys` visits them. */
  datatype SyncKey = EmailKey | NameKey | FirstNameKey | LastNameKey | ImageUrlKey | LastLoginAtKey

  const UpdateKeys: seq<SyncKey> := [EmailKey, NameKey, FirstNameKey, LastNameKey, ImageUrlKey, LastLoginAtKey]

  function ProfileField(u: User, k: SyncKey): string
  {
    match k
    case EmailKey => u.email
    case NameKey => u.name
    case FirstNameKey => u.firstName
    case LastNameKey => u.lastName
    case ImageUrlKey => u.imageUrl
    case LastLoginAtKey => ""
  }

  /** The `some` callback: the login time always counts as a change. */
  predicate KeyChanged(update: User, stored: User, k: SyncKey)
  {
    k == LastLoginAtKey || ProfileField(update, k) != ProfileField(stored, k)
  }

  /** `keys.some(key => KeyChanged(...))`. */
  predicate AnyChanged(keys: seq<SyncKey>, update: User, stored: User)
  {
    exists i :: 0 <= i < |keys| && KeyChanged(update, stored, keys[i])
  }

  /** Scans the keys left to right as `some` does. */
  function ScanChanged(keys: seq<SyncKey>, update: User, stored: User): (b: bool)
    ensures b <==> AnyChanged(keys, update, stored)
  {
    if |keys| == 0 then false
    else if KeyChanged(update, stored, keys[0]) then true
    else
      var rest := ScanChanged(keys[1..], update, stored);
      assert AnyChanged(keys, update, stored) ==> AnyChanged(keys[1..], update, stored) by {
        if AnyChanged(keys, update, stored) {
          var i :| 0 <= i < |keys| && KeyChanged(update, stored, keys[i]);
          assert i != 0 && keys[1..][i - 1] == keys[i];
        }
      }
      assert AnyChanged(keys[1..], update, stored) ==> AnyChanged(keys, update, stored) by {
        if AnyChanged(keys[1..], update, stored) {
          var i :| 0 <= i < |keys[1..]| && KeyChanged(update, stored, keys[1..][i]);
          assert keys[i + 1] == keys[1..][i];
        }
      }
      rest
  }

  /** The sync's "only update if there are changes" test. */
  function HasChanges(update: User, stored: User): (b: bool)
    ensures b <==> exists i :: 0 <= i < |UpdateKeys| && KeyChanged(update, stored, UpdateKeys[i])
  {
    ScanChanged(UpdateKeys, update, stored)
  }

  /** The change test is always true, even when no profile field differs. */
  lemma HasChangesAlways(update: User, stored: User)
    ensures HasChanges(update, stored)
  {
    assert UpdateKeys[5] == LastLoginAtKey;
    assert KeyChanged(update, stored, UpdateKeys[5]);
  }

  /** The user record the sync produces for a signed-in account. */
  function SyncedUser(userId: string, clerk: ClerkUser, stored: Option<User>): (u: User)
    ensures u.id == userId
    ensures stored.None? ==> u == NewUser(userId, clerk)
    ensures stored.Some? ==> u == MergeProfile(stored.value, clerk).(id := userId)
  {
    match stored
    case None => NewUser(userId, clerk)
    case Some(s) =>
      var update := MergeProfile(s, clerk);
      HasChangesAlways(update, s);
      (if HasChanges(update, s) then update else s).(id := userId)
  }

  /**
   One run of the sync effect. `stored` is the user document as read (none if it
   does not exist) and `storeError` the failure of the read or write, if any.
   */
  function Sync(h: Hook, stored: Option<User>, storeError: Option<string>): (r: Hook)
    ensures r.session == h.session
    ensures !h.session.isLoaded ==> r == h
    ensures h.session.isLoaded && !(h.session.isSignedIn && h.session.clerk.Some? && Truthy(h.session.userId))
            ==> r.user.None? && r.error.None?
    ensures h.session.isLoaded && h.session.isSignedIn && h.session.clerk.Some? && Truthy(h.session.userId) && storeError.Some?
            ==> r.user.None? && r.error == storeError
    ensures r.user.Some? <==>
            (h.session.isLoaded && h.session.isSignedIn && h.session.clerk.Some? && Truthy(h.session.userId) && storeError.None?)
            || (!h.session.isLoaded && h.user.Some?)
    ensures h.session.isLoaded && r.user.Some? ==> r.user.value.id == h.session.userId.value
    ensures h.session.isLoaded && h.session.isSignedIn && h.session.clerk.Some? && Truthy(h.session.userId) && storeError.None?
            ==> r.user == Some(SyncedUser(h.session.userId.value, h.session.clerk.value, stored)) && r.error.None?
  {
    var s := h.session;
    if !s.isLoaded then h
    else if s.isSignedIn && s.clerk.Some? && Truthy(s.userId) then
      if storeError.Some? then Hook(s, None, storeError)
      else Hook(s, Some(SyncedUser(s.userId.value, s.clerk.value, stored)), None)
    else Hook(s, None, None)
  }

  /** A returning user keeps the stored wallet and takes the provider's profile fields, under the session's id. */
  lemma SyncMergesStoredUser(h: Hook, stored: User)
    requires h.session.isLoaded && h.session.isSignedIn && h.session.clerk.Some? && Truthy(h.session.userId)
    ensures var u := Sync(h, Some(stored), None).user;
      && u == Some(MergeProfile(stored, h.session.clerk.value).(id := h.session.userId.value))
      && u.value.points == stored.points && u.value.stats == stored.stats
      && (Balanced(u.value) <==> Balanced(stored))
  {
    MergeKeepsWallet(stored, h.session.clerk.value);
  }

  /** A first sign-in yields a balanced wallet holding the starting points. */
  lemma FirstSyncStartsBalanced(h: Hook)
    requires h.session.isLoaded && h.session.isSignedIn && h.session.clerk.Some? && Truthy(h.session.userId)
    ensures Sync(h, None, None).user.Some?
    ensures Sync(h, None, None).user.value.points == StartingPoints
    ensures Balanced(Sync(h, None, None).user.value)
  {
  }

  // ---------------------------------------------------------------------------
  // Points

  datatype StatField = PointsEarnedField | PointsSpentField

  /** The document update `updateUserPoints` sends: the new balance and one stats counter. */
  datatype PointsWrite = PointsWrite(points: int, field: StatField, value: int)

  /** Whether the call returned true, the hook state after it, and the write it attempted. */
  datatype PointsOutcome = PointsOutcome(ok: bool, hook: Hook, write: Option<PointsWrite>)

  function Abs(n: int): nat
  {
    if n < 0 then -n else n
  }

  /** The store update for a change of `change` points. */
  function PointsWriteFor(u: User, change: int): PointsWrite
  {
    if change > 0 then PointsWrite(u.points + change, PointsEarnedField, OrZero(u.stats.pointsEarned) + change)
    else PointsWrite(u.points + change, PointsSpentField, OrZero(u.stats.pointsSpent) + Abs(change))
  }

  /** The local state update on success. */
  function ApplyPointsLocally(u: User, change: int): User
  {
    u.(points := u.points + change,
       stats := u.stats.(
         pointsEarned := Some(if change > 0 then OrZero(u.stats.pointsEarned) + change else OrZero(u.stats.pointsEarned)),
         pointsSpent := Some(if change < 0 then OrZero(u.stats.pointsSpent) + Abs(change) else OrZero(u.stats.pointsSpent))))
  }

  /**
   `updateUserPoints(change)`. `writeError` is the failure of the document
   update, or none when it succeeds.
   */
  function UpdateUserPoints(h: Hook, change: int, writeError: Option<string>): (r: PointsOutcome)
    ensures h.user.None? || !Truthy(h.session.userId) ==> r == PointsOutcome(false, h, None)
    ensures h.user.Some? && Truthy(h.session.userId) && h.user.value.points + change < 0 ==>
              r == PointsOutcome(false, h.(error := Some(InsufficientPoints)), None)
    ensures r.ok <==> h.user.Some? && Truthy(h.session.userId) && h.user.value.points + change >= 0 && writeError.None?
    ensures !r.ok ==> r.hook.user == h.user
    ensures r.ok ==> r.hook.user.Some? && r.hook.user.value.points == h.user.value.points + change
    ensures r.ok ==> r.hook.user.value.points >= 0
    ensures r.ok ==> r.hook.error == h.error
    ensures h.user.Some? && Truthy(h.session.userId) && h.user.value.points + change >= 0 && writeError.Some? ==>
              r.hook == h.(error := writeError) && r.write == Some(PointsWriteFor(h.user.value, change))
    ensures r.hook.session == h.session
  {
    if h.user.None? || !Truthy(h.session.userId) then PointsOutcome(false, h, None)
    else
      var u := h.user.value;
      if u.points + change < 0 then PointsOutcome(false, h.(error := Some(InsufficientPoints)), None)
      else
        var w := PointsWriteFor(u, change);
        if writeError.Some? then PointsOutcome(false, h.(error := writeError), Some(w))
        else PointsOutcome(true, h.(user := Some(ApplyPointsLocally(u, change))), Some(w))
  }

  /** Earned grows by the change exactly when it is positive; spent grows by its size exactly when it is negative. */
  lemma PointsStatsRule(h: Hook, change: int)
    requires UpdateUserPoints(h, change, None).ok
    ensures var u := h.user.value; var u' := UpdateUserPoints(h, change, None).hook.user.value;
      && OrZero(u'.stats.pointsEarned) == OrZero(u.stats.pointsEarned) + (if change > 0 then change else 0)
      && OrZero(u'.stats.pointsSpent) == OrZero(u.stats.pointsSpent) + (if change < 0 then -change else 0)
      && u'.stats.itemsListed == u.stats.itemsListed && u'.stats.itemsSwapped == u.stats.itemsSwapped
      && u' == u.(points := u'.points, stats := u'.stats)
  {
  }

  /** A successful update keeps points equal to earned minus spent. */
  lemma PointsKeepBalanced(h: Hook, change: int, writeError: Option<string>)
    requires h.user.Some? && Balanced(h.user.value)
    ensures var r := UpdateUserPoints(h, change, writeError);
      r.hook.user.Some? && Balanced(r.hook.user.value)
  {
  }

  /** No call to `updateUserPoints` can take a non-negative balance below zero. */
  lemma PointsStayNonNegative(h: Hook, change: int, writeError: Option<string>)
    requires h.user.Some? && h.user.value.points >= 0
    ensures var r := UpdateUserPoints(h, change, writeError);
      r.hook.user.Some? && r.hook.user.value.points >= 0
  {
  }

  /** The user document after the store applies a points write. */
  function ApplyPointsWrite(u: User, w: PointsWrite): User
  {
    u.(points := w.points,
       stats := match w.field
         case PointsEarnedField => u.stats.(pointsEarned := Some(w.value))
         case PointsSpentField => u.stats.(pointsSpent := Some(w.value)))
  }

  /** The stored document and the local state agree after a successful update (counters read with `|| 0`). */
  lemma StoreAgreesWithLocalState(h: Hook, change: int)
    requires UpdateUserPoints(h, change, None).ok
    ensures var r := UpdateUserPoints(h, change, None);
      var stored := ApplyPointsWrite(h.user.value, r.write.value);
      var local := r.hook.user.value;
      && r.write.Some?
      && stored.points == local.points
      && OrZero(stored.stats.pointsEarned) == OrZero(local.stats.pointsEarned)
      && OrZero(stored.stats.pointsSpent) == OrZero(local.stats.pointsSpent)
  {
  }

  /** Spending then earning back the same amount restores the balance, and both counters record it. */
  lemma SpendThenEarn(h: Hook, amount: int)
    requires amount > 0
    requires UpdateUserPoints(h, -amount, None).ok
    ensures var h1 := UpdateUserPoints(h, -amount, None).hook;
      var r := UpdateUserPoints(h1, amount, None);
      && r.ok
      && r.hook.user.value.points == h.user.value.points
      && OrZero(r.hook.user.value.stats.pointsSpent) == OrZero(h.user.value.stats.pointsSpent) + amount
      && OrZero(r.hook.user.value.stats.pointsEarned) == OrZero(h.user.value.stats.pointsEarned) + amount
  {
  }

  /** The hook with the session's user id replaced by `uid`. */
  function SignedInAs(h: Hook, uid: string): Hook
  {
    h.(session := h.session.(userId := Some(uid)))
  }

  /**
   `canAfford(points)`: a user is present and holds at least `points`. It reads
   only `user`, so it agrees with a spend under any non-empty user id.
   */
  function CanAfford(h: Hook, points: int): (r: bool)
    ensures r ==> h.user.Some?
    ensures Truthy(h.session.userId) ==> (r <==> UpdateUserPoints(h, -points, None).ok)
    ensures forall uid :: uid != "" ==> (r <==> UpdateUserPoints(SignedInAs(h, uid), -points, None).ok)
  {
    h.user.Some? && h.user.value.points >= points
  }

  /** Affordability, whatever the session holds, is exactly what makes a spend of that amount go through once a user id is set. */
  lemma CanAffordIffSpendSucceeds(h: Hook, points: int, uid: string)
    requires uid != ""
    ensures CanAfford(h, points) <==> UpdateUserPoints(SignedInAs(h, uid), -points, None).ok
  {
  }

  // ---------------------------------------------------------------------------
  // Stats patch

  /** The top-level keys an `updateUserStats` call may carry; a missing key is left alone. */
  datatype UserPatch = UserPatch(
    points: Option<int>,
    totalSwaps: Option<int>,
    totalListings: Option<int>,
    stats: Option<Stats>)

  /** `{ ...prev, ...statsUpdate }`: a shallow overlay, so a `stats` key replaces the whole object. */
  function Overlay(u: User, p: UserPatch): (r: User)
    ensures r.points == (if p.points.Some? then p.points.value else u.points)
    ensures r.totalSwaps == (if p.totalSwaps.Some? then p.totalSwaps.value else u.totalSwaps)
    ensures r.totalListings == (if p.totalListings.Some? then p.totalListings.value else u.totalListings)
    ensures r.stats == (if p.stats.Some? then p.stats.value else u.stats)
    ensures r.(points := u.points, totalSwaps := u.totalSwaps, totalListings := u.totalListings, stats := u.stats) == u
  {
    u.(points := if p.points.Some? then p.points.value else u.points,
       totalSwaps := if p.totalSwaps.Some? then p.totalSwaps.value else u.totalSwaps,
       totalListings := if p.totalListings.Some? then p.totalListings.value else u.totalListings,
       stats := if p.stats.Some? then p.stats.value else u.stats)
  }

  /** `updateUserStats(statsUpdate)`: returns whether it succeeded, and the new hook state. */
  function UpdateUserStats(h: Hook, p: UserPatch, writeError: Option<string>): (r: (bool, Hook))
    ensures r.0 <==> h.user.Some? && Truthy(h.session.userId) && writeError.None?
    ensures r.0 ==> r.1.user == Some(Overlay(h.user.value, p)) && r.1.error == h.error
    ensures !r.0 ==> r.1.user == h.user
    ensures h.user.None? || !Truthy(h.session.userId) ==> r.1 == h
    ensures h.user.Some? && Truthy(h.session.userId) && writeError.Some? ==> r.1 == h.(error := writeError)
    ensures r.1.session == h.session
  {
    if h.user.None? || !Truthy(h.session.userId) then (false, h)
    else if writeError.Some? then (false, h.(error := writeError))
    else (true, h.(user := Some(Overlay(h.user.value, p))))
  }

  /** Applying the same patch twice is the same as applying it once. */
  lemma OverlayIdempotent(u: User, p: UserPatch)
    ensures Overlay(Overlay(u, p), p) == Overlay(u, p)
  {
  }

  /** A patch that leaves points and stats alone keeps a balanced wallet balanced. */
  lemma CounterPatchKeepsBalanced(u: User, p: UserPatch)
    requires p.points.None? && p.stats.None?
    ensures Balanced(Overlay(u, p)) <==> Balanced(u)
  {
  }
}
