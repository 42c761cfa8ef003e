/**
  Runs of the scripting interface: one session, one accounts collection, the stored rows, and every wrapper handed out
  so far. Every step keeps `Valid` and is an `IsStep` between the states before and after it; lemmas about such states
  put steps together into an `IsRun`, and `Run` shows that every sequence of steps is one.
  */
module ComServer {
  import opened Wrappers
  import opened ComAccounts

  datatype Step =
    | Authenticate(isAdministrator: bool, storedEmpty: bool, submittedEmpty: bool, storedIsPbkdf2: bool, matches: bool,
                   validated: Option<(int, Row)>)
    | Add
    | GetItem(index: int)
    | GetItemByDBID(id: int)
    | DeleteAt(index: int)
    | DeleteByDBID(id: int)
    | Refresh(order: seq<int>, queryRan: bool)
    | PutAdminLevel(handle: nat, level: int)
    | PutAddress(handle: nat, address: string)
    | PutActive(handle: nat, active: bool)
    | Save(handle: nat, allowed: bool, inboxCreated: bool)
    | Delete(handle: nat)

  /** Whether an account that the password check returns can be one: stored accounts have positive ids. */
  predicate IsPossible(validated: Option<(int, Row)>) {
    validated.Some? ==> 0 < validated.value.0
  }

  /** The level of the session's account after a step, 0 for no account, given what it was before. */
  function LevelAfter(step: Step, before: int): int {
    match step
    case Authenticate(isAdministrator, storedEmpty, submittedEmpty, storedIsPbkdf2, matches, validated) =>
      if !IsPossible(validated) then before
      else if isAdministrator && (if storedEmpty then submittedEmpty else storedIsPbkdf2 && matches) then SERVER_ADMIN
      else if !isAdministrator && validated.Some? then validated.value.1.adminLevel
      else 0
    case _ => before
  }

  /** The level when k steps have been taken. */
  function LevelAt(steps: seq<Step>, before: int, k: nat): int
    requires k <= |steps|
  {
    if k == 0 then before else LevelAfter(steps[k - 1], LevelAt(steps, before, k - 1))
  }

  /** No step is taken while the session's account is at one of these levels. */
  predicate NoneAt(levels: set<int>, steps: seq<Step>, before: int) {
    forall k :: 0 <= k < |steps| ==> LevelAt(steps, before, k) !in levels
  }

  lemma {:induction false} NobodyLogsOn(steps: seq<Step>, before: int, k: nat)
    requires k <= |steps| && forall j :: 0 <= j < |steps| ==> !steps[j].Authenticate?
    ensures LevelAt(steps, before, k) == before
  {
    if k > 0 {
      NobodyLogsOn(steps, before, k - 1);
    }
  }

  // --- what is compared between two states of a run -------------------------------------------------

  /** The id of an object and the row it would be saved as. */
  datatype Entry = Entry(id: int, row: Row)

  /** What a run may change, as far as its results speak of it. */
  datatype Snapshot = Snapshot(
    /** The wrappers handed out, in order, and the objects they hold. */
    wrappers: seq<AccountItem>,
    held: map<AccountItem, Account?>,
    objects: map<Account, Entry>,
    rows: map<int, Row>,
    items: seq<Account>,
    loaded: set<Account>,
    addedBy: seq<AccountItem>,
    inserted: seq<Account>,
    /** The wrappers whose new object is to enter the collection when it is saved. */
    pending: set<AccountItem>,
    /** The account of the session and its level. */
    account: Account?,
    level: int,
    /** The object held by the wrapper handed out last. */
    newest: Account?)
  {
    function ObjectsAt(level: int): set<Account> {
      set o | o in objects && objects[o].row.adminLevel == level
    }

    predicate RowAt(level: int, id: int) {
      id in rows && rows[id].adminLevel == level
    }
  }

  /** The object was at the server administrator's level in the first state, or was made from a row that was. */
  predicate HadLevel(a: Snapshot, b: Snapshot, o: Account)
    requires o in b.objects
  {
    if o in a.objects then o in a.ObjectsAt(SERVER_ADMIN) && a.objects[o].id == b.objects[o].id
    else a.RowAt(SERVER_ADMIN, b.objects[o].id)
  }

  /**
    No object and no row has come to the server administrator's level, whether it was there before or not. The only
    exception is the copy just handed out by logging on as server administrator.
    */
  ghost predicate Contained(a: Snapshot, b: Snapshot) {
    && (forall o :: o in b.ObjectsAt(SERVER_ADMIN) ==> HadLevel(a, b, o) || (b.level == SERVER_ADMIN && b.newest == o))
    && (forall id :: b.RowAt(SERVER_ADMIN, id) ==> a.RowAt(SERVER_ADMIN, id))
  }

  /** A domain administrator's row had this id in the first state, or such an object that existed there has it now. */
  ghost predicate Licensed(a: Snapshot, b: Snapshot, id: int) {
    && 0 < id
    && (a.RowAt(DOMAIN_ADMIN, id)
        || exists o :: o in a.ObjectsAt(DOMAIN_ADMIN) && o in b.objects && b.objects[o].id == id)
  }

  /**
    What a state keeps when nobody acts as administrator. No object has come to the domain administrator's level but
    copies of such rows and the copy just handed out by logging on at that level; a row has come there only by saving
    an object that was there. No row is gone, no wrapper is new that adds an object, and no address is changed.
    */
  ghost predicate Restricted(a: Snapshot, b: Snapshot) {
    && (forall o :: o in b.ObjectsAt(DOMAIN_ADMIN) ==>
          if o in a.objects then o in a.ObjectsAt(DOMAIN_ADMIN)
          else Licensed(a, b, b.objects[o].id) || (b.level == DOMAIN_ADMIN && b.newest == o))
    && (forall id :: b.RowAt(DOMAIN_ADMIN, id) ==> Licensed(a, b, id))
    && a.rows.Keys <= b.rows.Keys
    && b.pending <= a.pending
    && (forall o :: o in a.objects && o in b.objects ==> b.objects[o].row.address == a.objects[o].row.address)
  }

  /** Records only grow, wrappers keep their objects and objects their ids, and what is loaded is new. */
  ghost predicate Grew(a: Snapshot, b: Snapshot) {
    && a.wrappers <= b.wrappers && (forall h :: h in a.held ==> h in b.held && b.held[h] == a.held[h])
    && a.addedBy <= b.addedBy && a.inserted <= b.inserted
    && (forall o :: o in a.objects ==> o in b.objects && a.objects[o].id in {0, b.objects[o].id})
    && a.loaded <= b.loaded && (b.loaded - a.loaded) !! a.objects.Keys
  }

  /** Every new item of the collection was loaded, or put there through a wrapper that was recorded for it. */
  ghost predicate Recorded(a: Snapshot, b: Snapshot)
    requires Grew(a, b)
  {
    forall o :: o in b.items ==> o in a.items || o in b.loaded - a.loaded || o in b.inserted[|a.inserted|..]
  }

  /** The collection has grown by the newly recorded objects, in their order, and by nothing else. */
  ghost predicate Appended(a: Snapshot, b: Snapshot)
    requires Grew(a, b)
  {
    b.items == a.items + b.inserted[|a.inserted|..]
  }

  lemma GrewOn(a: Snapshot, b: Snapshot, c: Snapshot)
    requires Grew(a, b) && Grew(b, c)
    ensures Grew(a, c)
    ensures c.inserted[|a.inserted|..] == b.inserted[|a.inserted|..] + c.inserted[|b.inserted|..]
    ensures Recorded(a, b) && Recorded(b, c) ==> Recorded(a, c)
    ensures Appended(a, b) && Appended(b, c) ==> Appended(a, c)
  {
  }

  /** Without privilege in between, two unprivileged stretches make one. */
  lemma ContainedOn(a: Snapshot, b: Snapshot, c: Snapshot)
    requires Grew(a, b) && Contained(a, b) && Contained(b, c) && b.level != SERVER_ADMIN
    ensures Contained(a, c)
  {
    forall o | o in c.ObjectsAt(SERVER_ADMIN) && !(c.level == SERVER_ADMIN && c.newest == o) ensures HadLevel(a, c, o) {
      assert HadLevel(b, c, o);
      if o in b.objects {
        assert HadLevel(a, b, o);
      }
    }
  }

  lemma LicensedOn(a: Snapshot, b: Snapshot, c: Snapshot, id: int)
    requires Grew(a, b) && Grew(b, c) && Restricted(a, b) && b.level != DOMAIN_ADMIN && Licensed(b, c, id)
    ensures Licensed(a, c, id)
  {
    if b.RowAt(DOMAIN_ADMIN, id) {
      assert Licensed(a, b, id);
    } else {
      var o :| o in b.ObjectsAt(DOMAIN_ADMIN) && c.objects[o].id == id;
      if o !in a.objects {
        assert Licensed(a, b, b.objects[o].id);
      }
    }
  }

  lemma RestrictedOn(a: Snapshot, b: Snapshot, c: Snapshot)
    requires Grew(a, b) && Grew(b, c) && Restricted(a, b) && Restricted(b, c) && b.level != DOMAIN_ADMIN
    ensures Restricted(a, c)
  {
    forall id | Licensed(b, c, id) ensures Licensed(a, c, id) {
      LicensedOn(a, b, c, id);
    }
    forall o | o in c.ObjectsAt(DOMAIN_ADMIN) && o !in a.objects && !(c.level == DOMAIN_ADMIN && c.newest == o)
      ensures Licensed(a, c, c.objects[o].id)
    {
      if o in b.objects {
        assert o in b.ObjectsAt(DOMAIN_ADMIN);
        assert Licensed(a, b, b.objects[o].id);
      } else {
        assert Licensed(b, c, c.objects[o].id);
      }
    }
  }

  /** A wrapper may be new, with an object that was there. */
  ghost predicate IsHandOut(a: Snapshot, b: Snapshot) {
    && b == a.(wrappers := b.wrappers, held := b.held, newest := b.newest)
    && a.wrappers <= b.wrappers && (forall h :: h in a.held ==> h in b.held && b.held[h] == a.held[h])
  }

  lemma HandOutKeeps(a: Snapshot, b: Snapshot)
    requires IsHandOut(a, b) && (forall id :: id in a.rows ==> 0 < id)
    ensures Grew(a, b) && Contained(a, b) && Restricted(a, b)
  {
    QuietKeeps(a, b);
  }

  /** Who was logged on before does not matter to what a state keeps. */
  lemma SessionAside(a: Snapshot, b: Snapshot, c: Snapshot)
    requires b == a.(account := b.account, level := b.level)
    ensures Grew(b, c) ==> Grew(a, c)
    ensures Contained(b, c) ==> Contained(a, c)
    ensures Restricted(b, c) ==> Restricted(a, c)
  {
    assert forall level :: a.ObjectsAt(level) == b.ObjectsAt(level);
  }

  /** What only touches wrappers and the session keeps every level. */
  lemma QuietKeeps(a: Snapshot, b: Snapshot)
    requires b.objects == a.objects && b.rows == a.rows && b.pending <= a.pending
    requires forall id :: id in a.rows ==> 0 < id
    ensures Contained(a, b) && Restricted(a, b)
  {
  }

  /** One wrapper is new, with a new object. */
  ghost predicate IsAddition(h: AccountItem, o: Account, a: Snapshot, b: Snapshot) {
    && b == a.(wrappers := a.wrappers + [h], held := b.held, objects := b.objects, pending := b.pending, newest := o)
    && (forall g :: g in a.held ==> g in b.held && b.held[g] == a.held[g])
    && o !in a.objects && o !in a.loaded && o in b.objects && b.objects == a.objects[o := b.objects[o]]
    && b.pending <= a.pending + {h}
  }

  /** A new object at the level of the session is the one exception. */
  lemma CopyKeeps(h: AccountItem, o: Account, a: Snapshot, b: Snapshot)
    requires IsAddition(h, o, a, b) && b.objects[o].row.adminLevel == b.level && h !in b.pending
    requires forall id :: id in a.rows ==> 0 < id
    ensures Contained(a, b) && Restricted(a, b)
  {
  }

  lemma AdditionKeeps(h: AccountItem, o: Account, a: Snapshot, b: Snapshot)
    requires IsAddition(h, o, a, b)
    ensures Grew(a, b)
    ensures b.objects[o].row.adminLevel !in ADMINS ==> Contained(a, b)
  {
  }

  /** Objects may be new that were made from rows. */
  ghost predicate IsLoad(a: Snapshot, b: Snapshot) {
    && b == a.(objects := b.objects, items := b.items, loaded := b.loaded)
    && a.loaded <= b.loaded && (b.loaded - a.loaded) !! a.objects.Keys
    && (forall o :: o in b.items ==> o in b.loaded - a.loaded)
    && (forall o :: o in a.objects ==> o in b.objects && b.objects[o] == a.objects[o])
    && (forall o :: o in b.objects && o !in a.objects ==>
          b.objects[o].id in a.rows && b.objects[o].row == a.rows[b.objects[o].id])
  }

  lemma LoadKeeps(a: Snapshot, b: Snapshot)
    requires IsLoad(a, b) && forall id :: id in a.rows ==> 0 < id
    ensures Grew(a, b) && Contained(a, b) && Restricted(a, b)
  {
  }

  /** Setting one object: its level and address are bounded by the level of the session. */
  lemma SetKeeps(o: Account, a: Snapshot, b: Snapshot)
    requires o in a.objects && o in b.objects && b == a.(objects := a.objects[o := b.objects[o]])
    requires b.objects[o].id == a.objects[o].id && forall id :: id in a.rows ==> 0 < id
    requires o in b.ObjectsAt(SERVER_ADMIN) ==> o in a.ObjectsAt(SERVER_ADMIN) || a.level == SERVER_ADMIN
    requires o in b.ObjectsAt(DOMAIN_ADMIN) ==> o in a.ObjectsAt(DOMAIN_ADMIN) || a.level in ADMINS
    requires b.objects[o].row.address == a.objects[o].row.address || a.level in ADMINS
    ensures Grew(a, b)
    ensures a.level != SERVER_ADMIN ==> Contained(a, b)
    ensures a.level !in ADMINS ==> Restricted(a, b)
  {
  }

  /** Nothing but rows and items may be gone, and none is unless an administrator acts. */
  predicate IsRemoval(a: Snapshot, b: Snapshot) {
    && b == a.(rows := b.rows, items := b.items)
    && (forall id :: id in b.rows ==> id in a.rows && b.rows[id] == a.rows[id])
    && (forall o :: o in b.items ==> o in a.items)
    && (a.level !in ADMINS ==> b == a)
  }

  lemma RemovalKeeps(a: Snapshot, b: Snapshot)
    requires IsRemoval(a, b) && forall id :: id in a.rows ==> 0 < id
    ensures Grew(a, b) && Recorded(a, b) && Contained(a, b) && (a.level !in ADMINS ==> Restricted(a, b))
  {
  }

  /** The object has its id or a new one, and a row may have been written for it; a record of it may be new. */
  ghost predicate IsSave(o: Account, a: Snapshot, b: Snapshot) {
    && b == a.(objects := b.objects, rows := b.rows, items := b.items, pending := b.pending,
               addedBy := b.addedBy, inserted := b.inserted)
    && o in a.objects && o in b.objects && b.objects == a.objects[o := Entry(b.objects[o].id, a.objects[o].row)]
    && a.objects[o].id in {0, b.objects[o].id}
    && (b.rows == a.rows
        || (0 < b.objects[o].id && b.rows == a.rows[b.objects[o].id := a.objects[o].row]))
    && ((b.rows == a.rows && b.objects == a.objects)
        || a.objects[o].row.adminLevel != SERVER_ADMIN || a.level == SERVER_ADMIN)
    && b.pending <= a.pending
  }

  lemma SaveKeeps(o: Account, a: Snapshot, b: Snapshot)
    requires IsSave(o, a, b) && forall id :: id in a.rows ==> 0 < id
    ensures a.level != SERVER_ADMIN ==> Contained(a, b)
    ensures Restricted(a, b)
  {
    if b.rows != a.rows && a.objects[o].row.adminLevel == DOMAIN_ADMIN {
      assert o in a.ObjectsAt(DOMAIN_ADMIN);
    }
  }

  lemma SaveAppends(o: Account, a: Snapshot, b: Snapshot, added: seq<Account>)
    requires IsSave(o, a, b) && b.items == a.items + added && b.inserted == a.inserted + added && a.addedBy <= b.addedBy
    ensures Grew(a, b) && Recorded(a, b) && Appended(a, b)
  {
  }

  /** Every object at the domain administrator's level is saved at that level. */
  predicate LevelsAreSaved(a: Snapshot) {
    forall o :: o in a.ObjectsAt(DOMAIN_ADMIN) ==> 0 < a.objects[o].id && a.RowAt(DOMAIN_ADMIN, a.objects[o].id)
  }

  /** From such a state on, nobody makes a row a domain administrator's without acting as administrator. */
  lemma NoRowIsPromoted(a: Snapshot, b: Snapshot, id: int)
    requires Grew(a, b) && Restricted(a, b) && LevelsAreSaved(a) && b.RowAt(DOMAIN_ADMIN, id)
    ensures a.RowAt(DOMAIN_ADMIN, id)
  {
    assert Licensed(a, b, id);
  }

  const ADMINS: set<int> := {DOMAIN_ADMIN, SERVER_ADMIN}

  /** Steps that take items out of the collection, or load them anew. */
  predicate Removes(step: Step) {
    step.DeleteByDBID? || step.Delete? || step.Refresh?
  }

  /** What every step keeps, and when it does more. */
  ghost predicate IsStep(step: Step, a: Snapshot, b: Snapshot) {
    && Grew(a, b) && Recorded(a, b)
    && b.level == LevelAfter(step, a.level)
    && (a.level != SERVER_ADMIN ==> Contained(a, b))
    && (a.level !in ADMINS ==> Restricted(a, b))
    && (step.Authenticate? || b.account == a.account)
    && (step.Refresh? || b.loaded == a.loaded)
    && ((Removes(step) && (step.Refresh? || a.level in ADMINS)) || Appended(a, b))
  }

  /**
    What every run keeps. The level at which a step is taken follows from the steps alone. If none is taken as server
    administrator, no object and no row has come to that level, objects made during the run included; if none is taken
    as any administrator, the run is restricted, and what it appends to the collection unless it reloads it are exactly
    the recorded objects. Items enter the collection by being loaded or through a wrapper recorded for it; a run that
    takes nothing out appends exactly the recorded objects. Only logging on changes what the session answers.
    */
  ghost predicate IsRun(steps: seq<Step>, a: Snapshot, b: Snapshot) {
    && Grew(a, b) && Recorded(a, b)
    && b.level == LevelAt(steps, a.level, |steps|)
    && (NoneAt({SERVER_ADMIN}, steps, a.level) ==> Contained(a, b))
    && (NoneAt(ADMINS, steps, a.level) ==> Restricted(a, b))
    && ((forall s :: s in steps ==> !s.Authenticate?) ==> b.account == a.account)
    && ((forall s :: s in steps ==> !s.Refresh?) ==> b.loaded == a.loaded)
    && ((forall s :: s in steps ==> !Removes(s)) ==> Appended(a, b))
    && (NoneAt(ADMINS, steps, a.level) && (forall s :: s in steps ==> !s.Refresh?) ==> Appended(a, b))
  }

  lemma {:induction false} LevelAtStart(steps: seq<Step>, step: Step, before: int, k: nat)
    requires k <= |steps|
    ensures LevelAt(steps + [step], before, k) == LevelAt(steps, before, k)
  {
    if k > 0 {
      LevelAtStart(steps, step, before, k - 1);
    }
  }

  lemma NoneAtStart(levels: set<int>, steps: seq<Step>, step: Step, before: int)
    ensures NoneAt(levels, steps + [step], before) <==>
            NoneAt(levels, steps, before) && LevelAt(steps, before, |steps|) !in levels
    ensures LevelAt(steps + [step], before, |steps| + 1) == LevelAfter(step, LevelAt(steps, before, |steps|))
  {
    var longer := steps + [step];
    forall k | 0 <= k <= |steps| ensures LevelAt(longer, before, k) == LevelAt(steps, before, k) {
      LevelAtStart(steps, step, before, k);
    }
    if NoneAt(levels, longer, before) {
      assert LevelAt(longer, before, |steps|) !in levels;
      forall k | 0 <= k < |steps| ensures LevelAt(steps, before, k) !in levels {
        assert LevelAt(longer, before, k) !in levels;
      }
    }
  }

  /** One more step makes a run one step longer. */
  lemma StepAfterRun(steps: seq<Step>, step: Step, a: Snapshot, b: Snapshot, c: Snapshot)
    requires IsRun(steps, a, b) && IsStep(step, b, c)
    ensures IsRun(steps + [step], a, c)
  {
    var longer := steps + [step];
    GrewOn(a, b, c);
    NoneAtStart({SERVER_ADMIN}, steps, step, a.level);
    NoneAtStart(ADMINS, steps, step, a.level);
    if NoneAt({SERVER_ADMIN}, longer, a.level) {
      ContainedOn(a, b, c);
    }
    if NoneAt(ADMINS, longer, a.level) {
      RestrictedOn(a, b, c);
    }
    assert step in longer && forall s :: s in steps ==> s in longer;
  }

  lemma LastStep(steps: seq<Step>, a: Snapshot, b: Snapshot, c: Snapshot)
    requires steps != [] && IsRun(steps[..|steps| - 1], a, b) && IsStep(steps[|steps| - 1], b, c)
    ensures IsRun(steps, a, c)
  {
    var n := |steps| - 1;
    assert steps == steps[..n] + [steps[n]];
    StepAfterRun(steps[..n], steps[n], a, b, c);
  }

  lemma NoSteps(a: Snapshot)
    requires forall id :: id in a.rows ==> 0 < id
    ensures IsRun([], a, a)
  {
  }

  predicate DistinctIds(items: seq<Account>)
    reads items
  {
    forall j, k :: 0 <= j < k < |items| ==> items[j].id != items[k].id
  }

  lemma WithoutOne(items: seq<Account>, k: nat)
    requires k < |items| && DistinctIds(items)
    ensures var rest := items[..k] + items[k + 1..];
            && DistinctIds(rest)
            && (forall j :: 0 <= j < |rest| ==> rest[j] in items && rest[j].id != items[k].id)
  {
    var rest := items[..k] + items[k + 1..];
    assert forall j :: 0 <= j < |rest| ==> rest[j] == items[if j < k then j else j + 1];
  }

  class Server {
    const session: Session
    const accounts: Accounts
    const store: Store
    var handles: seq<AccountItem>
    /** The account objects that the collection or a wrapper holds. */
    ghost var objects: set<Account>
    /** The wrappers through which an object was put into the collection, once for every time. */
    ghost var addedBy: seq<AccountItem>
    /** The objects put there, one for each of those wrappers. */
    ghost var inserted: seq<Account>
    /** The account objects that reloading the collection has made. */
    ghost var loaded: set<Account>

    ghost function Repr(): set<object>
      reads this`handles, this`objects
    {
      {this, session, accounts, store} + (set h | h in handles) + objects
    }

    /** A wrapper made by Add whose object has not been saved yet. */
    static ghost predicate Pending(h: AccountItem)
      reads h
    {
      h.parent != null && !h.inCollection
    }

    ghost predicate ItemsValid()
      reads this`objects, accounts, store, objects
    {
      && (forall k :: 0 <= k < |accounts.items| ==>
            accounts.items[k] in objects && 0 < accounts.items[k].id < store.nextId)
      && DistinctIds(accounts.items)
    }

    ghost predicate StoreValid()
      reads this`objects, store, objects
    {
      && 0 < store.nextId
      && (forall o :: o in objects ==> 0 <= o.id)
      && (forall id :: id in store.rows ==> 0 < id < store.nextId)
    }

    ghost predicate HandlesValid()
      reads this`handles, this`objects, objects, set h | h in handles
    {
      && (forall k :: 0 <= k < |handles| ==>
            var h := handles[k];
            && h.object_ != null && h.object_ in objects && h.session == session
            && (h.parent == null || h.parent == accounts)
            && (h.parent != null ==> (h.inCollection <==> h.object_.id > 0)))
      && (forall j, k :: 0 <= j < k < |handles| ==> handles[j] != handles[k])
      && (forall j, k :: 0 <= j < |handles| && 0 <= k < |handles| && j != k && Pending(handles[j]) ==>
            handles[k].object_ != handles[j].object_)
    }

    /** No wrapper has put its object into the collection twice, and none that has will do so again. */
    ghost predicate AddedOnce()
      reads this`handles, this`addedBy, this`inserted, set h | h in handles
    {
      && (forall j, k :: 0 <= j < k < |addedBy| ==> addedBy[j] != addedBy[k])
      && (forall k :: 0 <= k < |addedBy| ==> addedBy[k] in handles && !Pending(addedBy[k]))
      && |inserted| == |addedBy|
      && (forall k :: 0 <= k < |addedBy| ==> addedBy[k].object_ == inserted[k])
    }

    ghost predicate StateValid()
      reads this`handles, this`objects, this`loaded, session, accounts, store, objects, set h | h in handles
    {
      && (session.account == null || session.account !in objects)
      && ItemsValid() && StoreValid() && HandlesValid() && loaded <= objects
    }

    ghost predicate Valid()
      reads this`handles, this`objects, this`addedBy, this`inserted, this`loaded
      reads session, accounts, store, objects, set h | h in handles
    {
      StateValid() && AddedOnce()
    }

    constructor (domainId: int)
      ensures Valid() && fresh(Repr()) && handles == [] && addedBy == [] && store.rows == map[]
    {
      session := new Session();
      accounts := new Accounts(domainId);
      store := new Store();
      handles, objects, addedBy, inserted, loaded := [], {}, [], [], {};
    }

    ghost function Held(): map<AccountItem, Account?>
      reads this`handles, set h | h in handles
    {
      map h | h in handles :: h.object_
    }

    ghost function Entries(): map<Account, Entry>
      reads this`objects, objects
    {
      map o | o in objects :: Entry(o.id, o.Stored())
    }

    ghost function AllPending(): set<AccountItem>
      reads this`handles, set h | h in handles
    {
      set h | h in handles && Pending(h)
    }

    ghost function Newest(): Account?
      reads this`handles, set h | h in handles
    {
      if |handles| > 0 then handles[|handles| - 1].object_ else null
    }

    ghost function Now(): Snapshot
      reads this`handles, this`objects, this`loaded, this`addedBy, this`inserted
      reads session, session.account, accounts, store, objects, set h | h in handles
    {
      Snapshot(handles, Held(), Entries(), store.rows, accounts.items, loaded, addedBy, inserted, AllPending(),
               session.account, session.Level(), Newest())
    }

    /** What a step may change is bounded by the level at which it is taken. */
    twostate predicate NoEscalation()
      reads this`handles, this`objects, this`loaded, this`addedBy, this`inserted
      reads session, session.account, accounts, store, objects, set h | h in handles
    {
      && (old(session.Level()) != SERVER_ADMIN ==> Contained(old(Now()), Now()))
      && (old(session.Level()) !in ADMINS ==> Restricted(old(Now()), Now()))
    }

    twostate predicate Grows()
      reads this`handles, this`objects, this`loaded, this`addedBy, this`inserted
      reads session, session.account, accounts, store, objects, set h | h in handles
    {
      Grew(old(Now()), Now())
    }

    /** What the session answers is unchanged. */
    twostate predicate SameSession()
      reads session, session.account
    {
      session.account == old(session.account) && session.Level() == old(session.Level())
    }

    /** The last wrapper handed out shares this object with the collection. */
    ghost predicate HandedOut(before: seq<AccountItem>, account: Account)
      reads this`handles, set h | h in handles
    {
      && |handles| > 0 && handles[..|handles| - 1] == before
      && handles[|handles| - 1].object_ == account && !Pending(handles[|handles| - 1])
    }

    // --- steps on the collection --------------------------------------------------------------------

    method DoAdd() returns (ok: bool)
      requires Valid()
      modifies this`handles, this`objects
      ensures Valid() && NoEscalation() && SameSession() && fresh(Repr() - old(Repr())) && Grows()
      ensures ok <==> old(session.Level()) in ADMINS
      ensures !ok ==> handles == old(handles)
      ensures ok ==> |handles| > 0 && handles[..|handles| - 1] == old(handles) && Pending(handles[|handles| - 1])
      ensures ok ==> fresh(handles[|handles| - 1].object_) && handles[|handles| - 1].object_.id == 0
    {
      ok := false;
      if !session.IsDomainAdmin() {
        return;
      }
      ghost var start := Now();
      var h := WrapNew(0, Row(accounts.domainId, 0, "", false), accounts);
      ok := true;
      AdditionKeeps(h, h.object_, start, Now());
    }

    /** Hands out a wrapper for a new object that is not in the collection. */
    method WrapNew(id: int, row: Row, parent: Accounts?) returns (h: AccountItem)
      requires Valid() && 0 <= id && (parent == null || (parent == accounts && id == 0))
      modifies this`handles, this`objects
      ensures Valid() && handles == old(handles) + [h] && fresh(h) && h.parent == parent && !h.inCollection
      ensures h.object_ != null && fresh(h.object_) && objects == old(objects) + {h.object_}
      ensures h.object_.id == id && h.object_.Stored() == row
      ensures IsAddition(h, h.object_, old(Now()), Now())
    {
      h := AdoptAndHandOut(id, row, parent);
      OnlyAdded(h, h.object_);
    }

    method AdoptAndHandOut(id: int, row: Row, parent: Accounts?) returns (h: AccountItem)
      requires Valid() && 0 <= id && (parent == null || (parent == accounts && id == 0))
      modifies this`handles, this`objects
      ensures Valid() && handles == old(handles) + [h] && fresh(h) && h.parent == parent && !h.inCollection
      ensures h.object_ != null && fresh(h.object_) && objects == old(objects) + {h.object_}
      ensures h.object_.id == id && h.object_.Stored() == row
    {
      var account := new Account(id, row);
      Adopt(account);
      h := new AccountItem(account, parent, false, session);
      HandOut(h);
    }

    /** When one wrapper with a new object is added, the state is otherwise the same. */
    twostate lemma OnlyAdded(new h: AccountItem, new o: Account)
      requires old(Valid()) && Valid()
      requires handles == old(handles) + [h] && objects == old(objects) + {o} && o !in old(objects) && h.object_ == o
      requires unchanged(this`loaded) && unchanged(this`addedBy) && unchanged(this`inserted)
      requires unchanged(session) && unchanged(accounts) && unchanged(store)
      requires forall k :: 0 <= k < |old(handles)| ==> unchanged(old(handles)[k])
      requires forall a :: a in old(objects) ==> unchanged(a)
      requires session.account == null || unchanged(session.account)
      ensures IsAddition(h, o, old(Now()), Now())
    {
      assert Entries() == old(Entries())[o := Entry(o.id, o.Stored())];
      assert forall g :: g in old(Held()) ==> Held()[g] == old(Held())[g];
      assert AllPending() <= old(AllPending()) + {h};
    }

    /** Records a new object. */
    method Adopt(account: Account)
      requires Valid() && account !in objects && account != session.account && 0 <= account.id
      modifies this`objects
      ensures Valid() && objects == old(objects) + {account}
    {
      objects := objects + {account};
    }

    /** Records a new wrapper. */
    method HandOut(h: AccountItem)
      requires Valid() && h !in handles
      requires h.object_ != null && h.object_ in objects && h.session == session
      requires h.parent == null || h.parent == accounts
      requires h.parent != null ==> (h.inCollection <==> h.object_.id > 0)
      requires forall k :: 0 <= k < |handles| && (Pending(h) || Pending(handles[k])) ==> handles[k].object_ != h.object_
      modifies this`handles
      ensures Valid() && handles == old(handles) + [h]
    {
      handles := handles + [h];
    }

    /** When one wrapper is handed out, the state is otherwise the same. */
    twostate lemma OnlyHandedOut(new h: AccountItem)
      requires old(Valid()) && Valid() && handles == old(handles) + [h] && !Pending(h)
      requires unchanged(this`objects) && unchanged(this`loaded)
      requires unchanged(this`addedBy) && unchanged(this`inserted)
      requires unchanged(session) && unchanged(accounts) && unchanged(store)
      requires forall k :: 0 <= k < |old(handles)| ==> unchanged(old(handles)[k])
      requires forall a :: a in objects ==> unchanged(a)
      requires session.account == null || unchanged(session.account)
      ensures IsHandOut(old(Now()), Now())
    {
      assert Entries() == old(Entries()) && AllPending() == old(AllPending());
      assert forall g :: g in old(Held()) ==> Held()[g] == old(Held())[g];
    }

    method DoGetItem(index: int) returns (ok: bool)
      requires Valid()
      modifies this`handles
      ensures Valid() && NoEscalation() && SameSession() && fresh(Repr() - old(Repr())) && Grows()
      ensures ok <==> 0 <= index < |accounts.items|
      ensures !ok ==> handles == old(handles)
      ensures ok ==> HandedOut(old(handles), accounts.items[index])
    {
      ghost var start := Now();
      ok := WrapItem(index);
      HandOutKeeps(start, Now());
    }

    method WrapItem(index: int) returns (ok: bool)
      requires Valid()
      modifies this`handles
      ensures Valid() && IsHandOut(old(Now()), Now()) && fresh(Repr() - old(Repr()))
      ensures ok <==> 0 <= index < |accounts.items|
      ensures !ok ==> handles == old(handles)
      ensures ok ==> HandedOut(old(handles), accounts.items[index])
    {
      ghost var start := Now();
      var account := accounts.GetItem(index);
      assert Valid() && Now() == start;
      Wrap(account);
      ok := account != null;
    }

    method DoGetItemByDBID(id: int) returns (ok: bool)
      requires Valid()
      modifies this`handles
      ensures Valid() && NoEscalation() && SameSession() && fresh(Repr() - old(Repr())) && Grows()
      ensures ok <==> exists k :: 0 <= k < |accounts.items| && accounts.items[k].id == id
      ensures !ok ==> handles == old(handles)
      ensures ok ==> exists k :: 0 <= k < |accounts.items| && accounts.items[k].id == id
                                 && HandedOut(old(handles), accounts.items[k])
    {
      ghost var start := Now();
      ok := WrapItemByDBID(id);
      HandOutKeeps(start, Now());
    }

    method WrapItemByDBID(id: int) returns (ok: bool)
      requires Valid()
      modifies this`handles
      ensures Valid() && IsHandOut(old(Now()), Now()) && fresh(Repr() - old(Repr()))
      ensures ok <==> exists k :: 0 <= k < |accounts.items| && accounts.items[k].id == id
      ensures !ok ==> handles == old(handles)
      ensures ok ==> exists k :: 0 <= k < |accounts.items| && accounts.items[k].id == id
                                 && HandedOut(old(handles), accounts.items[k])
    {
      ghost var start := Now();
      var account := accounts.GetItemByDBID(id);
      assert Valid() && Now() == start;
      Wrap(account);
      ok := account != null;
    }

    /** Hands out a wrapper for an item of the collection, if one is given. */
    method Wrap(account: Account?)
      requires Valid() && (account != null ==> account in accounts.items)
      modifies this`handles
      ensures Valid() && IsHandOut(old(Now()), Now()) && fresh(Repr() - old(Repr()))
      ensures account == null ==> handles == old(handles)
      ensures account != null ==> HandedOut(old(handles), account)
    {
      if account != null {
        var h := new AccountItem(account, accounts, true, session);
        HandOut(h);
        OnlyHandedOut(h);
      }
    }

    /** When only rows or one item go, the invariant stays and the state is otherwise the same. */
    twostate lemma OnlyRemoved()
      requires old(Valid())
      requires unchanged(this) && unchanged(session) && store.nextId == old(store.nextId)
      requires forall k :: 0 <= k < |handles| ==> unchanged(handles[k])
      requires forall a :: a in old(objects) ==> unchanged(a)
      requires session.account == null || unchanged(session.account)
      requires forall id :: id in store.rows ==> id in old(store.rows) && store.rows[id] == old(store.rows)[id]
      requires accounts.items == old(accounts.items)
               || exists k :: 0 <= k < |old(accounts.items)|
                              && accounts.items == old(accounts.items)[..k] + old(accounts.items)[k + 1..]
      requires old(session.Level()) !in ADMINS ==>
                 store.rows == old(store.rows) && accounts.items == old(accounts.items)
      ensures Valid() && IsRemoval(old(Now()), Now())
    {
      assert Entries() == old(Entries()) && Held() == old(Held()) && AllPending() == old(AllPending());
      assert forall a :: a in accounts.items ==> a in old(accounts.items);
    }

    /** Deletes the row of an item but keeps the item; an index out of range is an exception. */
    method DoDeleteAt(index: int) returns (ok: bool)
      requires Valid()
      modifies store`rows
      ensures Valid() && NoEscalation() && SameSession() && Grows()
      ensures ok <==> old(session.Level()) in ADMINS && 0 <= index < |accounts.items|
      ensures store.rows == if ok then old(store.rows) - {accounts.items[index].id} else old(store.rows)
    {
      ghost var start := Now();
      ok := DeleteRow(index);
      RemovalKeeps(start, Now());
    }

    method DeleteRow(index: int) returns (ok: bool)
      requires Valid()
      modifies store`rows
      ensures Valid() && IsRemoval(old(Now()), Now())
      ensures ok <==> old(session.Level()) in ADMINS && 0 <= index < |accounts.items|
      ensures store.rows == if ok then old(store.rows) - {accounts.items[index].id} else old(store.rows)
    {
      ok := false;
      if !session.IsDomainAdmin() {
        return;
      }
      var account := accounts.GetItem(index);
      if account != null {
        var deleted := store.DeleteObject(account.id);
        ok := true;
      }
      OnlyRemoved();
    }

    method DoDeleteByDBID(id: int) returns (ok: bool)
      requires Valid()
      modifies accounts, store`rows
      ensures Valid() && NoEscalation() && SameSession() && Grows() && Recorded(old(Now()), Now())
      ensures ok <==> old(session.Level()) in ADMINS
      ensures ok ==> forall k :: 0 <= k < |accounts.items| ==> accounts.items[k].id != id
      ensures forall a :: a in accounts.items ==> a in old(accounts.items)
      ensures !ok ==> accounts.items == old(accounts.items) && store.rows == old(store.rows)
    {
      ghost var start := Now();
      ok := DeleteItem(id);
      RemovalKeeps(start, Now());
    }

    method DeleteItem(id: int) returns (ok: bool)
      requires Valid()
      modifies accounts, store`rows
      ensures Valid() && IsRemoval(old(Now()), Now())
      ensures ok <==> old(session.Level()) in ADMINS
      ensures ok ==> forall k :: 0 <= k < |accounts.items| ==> accounts.items[k].id != id
      ensures !ok ==> accounts.items == old(accounts.items) && store.rows == old(store.rows)
    {
      ok := false;
      if !session.IsDomainAdmin() {
        return;
      }
      RemoveItem(id);
      ok := true;
      OnlyRemoved();
    }

    method RemoveItem(id: int)
      requires DistinctIds(accounts.items)
      modifies accounts, store`rows
      ensures forall k :: 0 <= k < |accounts.items| ==> accounts.items[k].id != id
      ensures accounts.items == old(accounts.items)
              || exists k :: 0 <= k < |old(accounts.items)|
                             && accounts.items == old(accounts.items)[..k] + old(accounts.items)[k + 1..]
      ensures store.rows == old(store.rows) || store.rows == old(store.rows) - {id}
    {
      ghost var before := accounts.items;
      var deleted := accounts.DeleteItemByDBID(id, store);
      if deleted {
        ghost var k :| 0 <= k < |before| && before[k].id == id && accounts.items == before[..k] + before[k + 1..];
        WithoutOne(before, k);
      }
    }

    /** The ids of the rows of the collection's domain, each once; domain 0 stands for all. */
    predicate IsQueryResult(order: seq<int>)
      reads store
    {
      && (forall j, k :: 0 <= j < k < |order| ==> order[j] != order[k])
      && (forall k :: 0 <= k < |order| ==> order[k] in store.rows)
      && (forall id :: id in store.rows ==>
            (id in order <==> accounts.domainId == 0 || store.rows[id].domainId == accounts.domainId))
    }

    method DoRefresh(order: seq<int>, queryRan: bool)
      requires Valid() && (queryRan ==> IsQueryResult(order))
      modifies this`objects, this`loaded, accounts
      ensures Valid() && NoEscalation() && SameSession() && fresh(Repr() - old(Repr())) && Grows()
      ensures ItemsFromRows() && ItemIds(if queryRan then order else [])
      ensures loaded == old(loaded) + set a | a in accounts.items
      ensures forall a :: a in accounts.items ==> fresh(a)
    {
      ghost var start := Now();
      Load(if queryRan then order else [], queryRan);
      OnlyLoaded();
      LoadKeeps(start, Now());
    }

    method Load(order: seq<int>, queryRan: bool)
      requires Valid() && forall j, k :: 0 <= j < k < |order| ==> order[j] != order[k]
      requires forall k :: 0 <= k < |order| ==> order[k] in store.rows
      modifies this`objects, this`loaded, accounts
      ensures Valid() && ItemsFromRows() && ItemIds(if queryRan then order else [])
      ensures forall a :: a in accounts.items ==> fresh(a)
      ensures objects == old(objects) + set a | a in accounts.items
      ensures loaded == old(loaded) + set a | a in accounts.items
    {
      LoadItems(order, queryRan);
      loaded := loaded + set a | a in accounts.items;
    }

    /** When the items become new objects made from rows, the state is otherwise the same. */
    twostate lemma OnlyLoaded()
      requires old(Valid()) && Valid() && ItemsFromRows()
      requires objects == old(objects) + set a | a in accounts.items
      requires loaded == old(loaded) + set a | a in accounts.items
      requires forall a :: a in accounts.items ==> a !in old(objects)
      requires unchanged(this`handles) && unchanged(this`addedBy) && unchanged(this`inserted)
      requires unchanged(session) && unchanged(store)
      requires forall k :: 0 <= k < |handles| ==> unchanged(handles[k])
      requires forall a :: a in old(objects) ==> unchanged(a)
      requires session.account == null || unchanged(session.account)
      ensures IsLoad(old(Now()), Now())
    {
      assert Held() == old(Held()) && AllPending() == old(AllPending());
      assert forall o :: o in old(Entries()) ==> o in Entries() && Entries()[o] == old(Entries())[o];
      assert forall o :: o in Entries() && o !in old(Entries()) ==> o in accounts.items;
    }

    /** Every item is as its row. */
    predicate ItemsFromRows()
      reads accounts, store, set a | a in accounts.items
    {
      forall j :: 0 <= j < |accounts.items| ==>
        accounts.items[j].id in store.rows && accounts.items[j].Stored() == store.rows[accounts.items[j].id]
    }

    /** The items have these ids, in this order. */
    predicate ItemIds(ids: seq<int>)
      reads accounts, set a | a in accounts.items
    {
      |accounts.items| == |ids| && forall j :: 0 <= j < |ids| ==> accounts.items[j].id == ids[j]
    }

    method LoadItems(order: seq<int>, queryRan: bool)
      requires Valid() && forall j, k :: 0 <= j < k < |order| ==> order[j] != order[k]
      requires forall k :: 0 <= k < |order| ==> order[k] in store.rows
      modifies this`objects, accounts
      ensures Valid() && ItemsFromRows() && ItemIds(if queryRan then order else [])
      ensures forall a :: a in accounts.items ==> fresh(a)
      ensures objects == old(objects) + set a | a in accounts.items
    {
      accounts.Refresh(store, order, queryRan);
      objects := objects + set a | a in accounts.items;
    }

    // --- logging on ---------------------------------------------------------------------------------

    /** Logs on and hands out a wrapper for a copy of the session's account. */
    method DoAuthenticate(isAdministrator: bool, storedEmpty: bool, submittedEmpty: bool, storedIsPbkdf2: bool,
                          matches: bool, validated: Option<(int, Row)>)
      requires Valid() && IsPossible(validated)
      modifies this`handles, this`objects, session
      ensures Valid() && NoEscalation() && fresh(Repr() - old(Repr())) && Grows()
      ensures isAdministrator ==>
                session.Level() ==
                if (if storedEmpty then submittedEmpty else storedIsPbkdf2 && matches) then SERVER_ADMIN else 0
      ensures !isAdministrator ==>
                session.Level() == if validated.Some? then validated.value.1.adminLevel else 0
    {
      ghost var start := Now();
      LogOn(isAdministrator, storedEmpty, submittedEmpty, storedIsPbkdf2, matches, validated);
      if session.account == null {
        QuietKeeps(start, Now());
      } else {
        WrapCopy(session.account, start);
      }
    }

    /** When the session gets another account, the state is otherwise the same. */
    twostate lemma OnlyLoggedOn()
      requires old(Valid()) && unchanged(this) && unchanged(accounts) && unchanged(store)
      requires forall k :: 0 <= k < |handles| ==> unchanged(handles[k])
      requires forall a :: a in objects ==> unchanged(a)
      ensures Now() == old(Now()).(account := session.account, level := session.Level())
    {
      assert Entries() == old(Entries()) && Held() == old(Held()) && AllPending() == old(AllPending());
    }

    method LogOn(isAdministrator: bool, storedEmpty: bool, submittedEmpty: bool, storedIsPbkdf2: bool,
                 matches: bool, validated: Option<(int, Row)>)
      requires Valid() && IsPossible(validated)
      modifies session
      ensures Valid() && Repr() == old(Repr())
      ensures Now() == old(Now()).(account := session.account, level := session.Level())
      ensures session.account != null ==> 0 <= session.account.id
      ensures isAdministrator ==>
                session.Level() ==
                if (if storedEmpty then submittedEmpty else storedIsPbkdf2 && matches) then SERVER_ADMIN else 0
      ensures !isAdministrator ==>
                session.Level() == if validated.Some? then validated.value.1.adminLevel else 0
    {
      var cached: Account? := null;
      if validated.Some? {
        cached := new Account(validated.value.0, validated.value.1);
      }
      session.Authenticate(isAdministrator, storedEmpty, submittedEmpty, storedIsPbkdf2, matches, cached);
      OnlyLoggedOn();
    }

    /** Hands out a wrapper for a copy of the session's account, in no collection. */
    method WrapCopy(account: Account, ghost start: Snapshot)
      requires Valid() && session.account == account && 0 <= account.id
      requires Now() == start.(account := account, level := session.Level())
      modifies this`handles, this`objects
      ensures Valid() && SameSession() && fresh(Repr() - old(Repr()))
      ensures Grew(start, Now()) && Contained(start, Now()) && Restricted(start, Now())
    {
      ghost var before := Now();
      var h := WrapNew(account.id, account.Stored(), null);
      ghost var now := Now();
      AdditionKeeps(h, h.object_, before, now);
      CopyKeeps(h, h.object_, before, now);
      SessionAside(start, before, now);
    }

    // --- steps on a wrapper -------------------------------------------------------------------------

    /** When one object is set, its id apart, the invariant stays and the state is otherwise the same. */
    twostate lemma OneObjectSet(o: Account)
      requires old(Valid()) && o in old(objects) && o.id == old(o.id)
      requires unchanged(this) && unchanged(session) && unchanged(accounts) && unchanged(store)
      requires forall k :: 0 <= k < |handles| ==> unchanged(handles[k])
      requires forall a :: a in old(objects) && a != o ==> unchanged(a)
      requires session.account == null || unchanged(session.account)
      ensures Valid()
      ensures Now() == old(Now()).(objects := old(Now()).objects[o := Entry(o.id, o.Stored())])
    {
      assert forall a :: a in objects ==> a.id == old(a.id);
      assert Entries() == old(Entries())[o := Entry(o.id, o.Stored())];
      assert Held() == old(Held());
      assert AllPending() == old(AllPending());
    }

    method DoPutAdminLevel(h: AccountItem, level: int) returns (ok: bool)
      requires Valid() && h in handles
      modifies h.object_
      ensures Valid() && NoEscalation() && SameSession() && Grows()
      ensures old(session.Level()) == SERVER_ADMIN ==> ok
      ensures h.object_.adminLevel == (if ok then level else old(h.object_.adminLevel))
      ensures h.object_.id == old(h.object_.id)
    {
      ghost var start := Now();
      ok := h.PutAdminLevel(level);
      OneObjectSet(h.object_);
      SetKeeps(h.object_, start, Now());
    }

    method DoPutAddress(h: AccountItem, address: string) returns (ok: bool)
      requires Valid() && h in handles
      modifies h.object_
      ensures Valid() && NoEscalation() && SameSession() && Grows()
    {
      ghost var start := Now();
      ok := h.PutAddress(address);
      OneObjectSet(h.object_);
      SetKeeps(h.object_, start, Now());
    }

    method DoPutActive(h: AccountItem, active: bool) returns (ok: bool)
      requires Valid() && h in handles
      modifies h.object_
      ensures Valid() && NoEscalation() && SameSession() && Grows()
    {
      ghost var start := Now();
      ok := h.PutActive(active);
      OneObjectSet(h.object_);
      SetKeeps(h.object_, start, Now());
    }

    method DoSave(h: AccountItem, allowed: bool, inboxCreated: bool) returns (ok: bool)
      requires Valid() && h in handles
      modifies h`inCollection, accounts, store, h.object_, this`addedBy, this`inserted
      ensures Valid() && NoEscalation() && SameSession()
      ensures accounts.items == old(accounts.items) + if ok && old(Pending(h)) then [h.object_] else []
      ensures addedBy == old(addedBy) + if ok && old(Pending(h)) then [h] else []
      ensures ok && inboxCreated ==> h.object_.id in store.rows && store.rows[h.object_.id] == h.object_.Stored()
      ensures allowed && old(h.object_.adminLevel != SERVER_ADMIN && (h.object_.id == 0 || h.object_.id in store.rows))
              ==> ok
      ensures h.object_.Stored() == old(h.object_.Stored())
      ensures Grows() && Recorded(old(Now()), Now()) && Appended(old(Now()), Now())
    {
      ghost var start := Now();
      ok := SaveAndRecord(h, allowed, inboxCreated);
      ghost var now := Now();
      SaveKeeps(h.object_, start, now);
      SaveAppends(h.object_, start, now, if ok && h in start.pending then [h.object_] else []);
    }

    method SaveAndRecord(h: AccountItem, allowed: bool, inboxCreated: bool) returns (ok: bool)
      requires Valid() && h in handles
      modifies h`inCollection, accounts, store, h.object_, this`addedBy, this`inserted
      ensures Valid() && SameSession() && IsSave(h.object_, old(Now()), Now())
      ensures accounts.items == old(accounts.items) + if ok && old(Pending(h)) then [h.object_] else []
      ensures addedBy == old(addedBy) + if ok && old(Pending(h)) then [h] else []
      ensures ok && inboxCreated ==> h.object_.id in store.rows && store.rows[h.object_.id] == h.object_.Stored()
      ensures allowed && old(h.object_.adminLevel != SERVER_ADMIN && (h.object_.id == 0 || h.object_.id in store.rows))
              ==> ok
      ensures inserted == old(inserted) + if ok && old(Pending(h)) then [h.object_] else []
    {
      ghost var pending := Pending(h);
      ok := SaveThrough(h, allowed, inboxCreated);
      Record(h, ok && pending);
    }

    /** Records whether an object was inserted through the wrapper. */
    ghost method Record(h: AccountItem, added: bool)
      requires Valid() && h in handles && (added ==> h !in addedBy && !Pending(h))
      modifies this`addedBy, this`inserted
      ensures Valid()
      ensures addedBy == old(addedBy) + if added then [h] else []
      ensures inserted == old(inserted) + if added then [h.object_] else []
      ensures Now() == old(Now()).(addedBy := addedBy, inserted := inserted)
    {
      if added {
        addedBy, inserted := addedBy + [h], inserted + [h.object_];
      }
      assert Entries() == old(Entries()) && Held() == old(Held()) && AllPending() == old(AllPending());
    }

    /** When one object is saved, its row and its wrapper apart, the state is otherwise the same. */
    twostate lemma OneObjectSaved(h: AccountItem)
      requires old(Valid()) && StateValid() && h in handles
      requires unchanged(this) && unchanged(session)
      requires forall k :: 0 <= k < |handles| && handles[k] != h ==> unchanged(handles[k])
      requires h.object_ == old(h.object_) && h.parent == old(h.parent) && (Pending(h) ==> old(Pending(h)))
      requires forall a :: a in objects && a != h.object_ ==> unchanged(a)
      requires session.account == null || unchanged(session.account)
      requires h.object_.Stored() == old(h.object_.Stored()) && old(h.object_.id) in {0, h.object_.id}
      requires store.rows == old(store.rows)
               || (0 < h.object_.id && store.rows == old(store.rows)[h.object_.id := h.object_.Stored()])
      requires h.object_.adminLevel != SERVER_ADMIN || session.IsServerAdmin()
               || (store.rows == old(store.rows) && h.object_.id == old(h.object_.id))
      ensures Valid() && IsSave(h.object_, old(Now()), Now())
    {
      assert Entries() == old(Entries())[h.object_ := Entry(h.object_.id, h.object_.Stored())];
      assert Held() == old(Held());
    }

    method SaveThrough(h: AccountItem, allowed: bool, inboxCreated: bool) returns (ok: bool)
      requires Valid() && h in handles
      modifies h`inCollection, accounts, store, h.object_
      ensures Valid() && SameSession()
      ensures accounts.items == old(accounts.items) + if ok && old(Pending(h)) then [h.object_] else []
      ensures Pending(h) <==> old(Pending(h)) && !ok
      ensures ok && inboxCreated ==> h.object_.id in store.rows && store.rows[h.object_.id] == h.object_.Stored()
      ensures allowed && old(h.object_.adminLevel != SERVER_ADMIN && (h.object_.id == 0 || h.object_.id in store.rows))
              ==> ok
      ensures IsSave(h.object_, old(Now()), Now())
    {
      ok := SaveRow(h, allowed, inboxCreated);
      OneObjectSaved(h);
    }

    method SaveRow(h: AccountItem, allowed: bool, inboxCreated: bool) returns (ok: bool)
      requires StateValid() && h in handles
      modifies h`inCollection, accounts, store, h.object_
      ensures StateValid() && SameSession()
      ensures accounts.items == old(accounts.items) + if ok && old(Pending(h)) then [h.object_] else []
      ensures Pending(h) <==> old(Pending(h)) && !ok
      ensures ok && inboxCreated ==> h.object_.id in store.rows && store.rows[h.object_.id] == h.object_.Stored()
      ensures allowed && old(h.object_.adminLevel != SERVER_ADMIN && (h.object_.id == 0 || h.object_.id in store.rows))
              ==> ok
      ensures h.object_.Stored() == old(h.object_.Stored())
      ensures ok && h.object_.adminLevel == SERVER_ADMIN ==> session.IsServerAdmin()
      ensures h.object_.id == old(h.object_.id) || (ok && old(h.object_.id) == 0)
      ensures store.rows == old(store.rows)
              || (ok && 0 < h.object_.id && store.rows == old(store.rows)[h.object_.id := h.object_.Stored()])
    {
      ok := SaveObject(h, allowed, inboxCreated);
      assert h.object_.id !in old(store.rows) ==> old(store.rows) - {h.object_.id} == old(store.rows);
    }

    /** The wrappers after a save, and the numbers it leaves. */
    method SaveObject(h: AccountItem, allowed: bool, inboxCreated: bool) returns (ok: bool)
      requires StateValid() && h in handles
      modifies h`inCollection, accounts, store, h.object_
      ensures HandlesValid() && SameSession()
      ensures accounts.items == old(accounts.items) + if ok && old(Pending(h)) then [h.object_] else []
      ensures Pending(h) <==> old(Pending(h)) && !ok
      ensures ok && inboxCreated ==> h.object_.id in store.rows && store.rows[h.object_.id] == h.object_.Stored()
      ensures allowed && old(h.object_.adminLevel != SERVER_ADMIN && (h.object_.id == 0 || h.object_.id in store.rows))
              ==> ok
      ensures h.object_.Stored() == old(h.object_.Stored())
      ensures ok && h.object_.adminLevel == SERVER_ADMIN ==> session.IsServerAdmin()
      ensures if ok && old(h.object_.id) == 0
              then h.object_.id == old(store.nextId) && store.nextId == old(store.nextId) + 1
              else h.object_.id == old(h.object_.id) && store.nextId == old(store.nextId)
      ensures store.rows == old(store.rows)
              || (ok && old(h.object_.id) == 0 && store.rows == old(store.rows) - {h.object_.id})
              || (ok && store.rows == old(store.rows)[h.object_.id := h.object_.Stored()])
      ensures ok && old(h.object_.id) > 0 ==> h.object_.id in old(store.rows)
    {
      ok := h.Save(store, allowed, inboxCreated);
    }

    method DoDelete(h: AccountItem) returns (ok: bool)
      requires Valid() && h in handles
      modifies accounts, store`rows
      ensures Valid() && NoEscalation() && SameSession() && Grows()
      ensures forall a :: a in accounts.items ==> a in old(accounts.items)
      ensures old(session.Level()) !in ADMINS ==> accounts.items == old(accounts.items)
    {
      ghost var start := Now();
      ok := DeleteThrough(h);
      RemovalKeeps(start, Now());
    }

    method DeleteThrough(h: AccountItem) returns (ok: bool)
      requires Valid() && h in handles
      modifies accounts, store`rows
      ensures Valid() && IsRemoval(old(Now()), Now())
    {
      ok := h.Delete(store);
      OnlyRemoved();
    }

    // --- runs ---------------------------------------------------------------------------------------

    /** One step; a step on a wrapper that was never handed out, or with a result no query gives, does nothing. */
    method Do(step: Step)
      requires Valid()
      modifies Repr()
      ensures Valid() && fresh(Repr() - old(Repr())) && IsStep(step, old(Now()), Now())
    {
      if step.Authenticate? || step.Add? || step.GetItem? || step.GetItemByDBID? {
        DoHandOut(step);
      } else if step.DeleteAt? || step.DeleteByDBID? || step.Refresh? {
        DoOnCollection(step);
      } else if step.handle < |handles| {
        DoOnHandle(handles[step.handle], step);
      }
    }

    /** The steps that hand out a wrapper. */
    method DoHandOut(step: Step)
      requires Valid() && (step.Authenticate? || step.Add? || step.GetItem? || step.GetItemByDBID?)
      modifies this`handles, this`objects, session
      ensures Valid() && fresh(Repr() - old(Repr())) && IsStep(step, old(Now()), Now())
    {
      var ok := false;
      match step {
        case Authenticate(isAdministrator, storedEmpty, submittedEmpty, storedIsPbkdf2, matches, validated) =>
          if IsPossible(validated) {
            DoAuthenticate(isAdministrator, storedEmpty, submittedEmpty, storedIsPbkdf2, matches, validated);
          }
        case Add => ok := DoAdd();
        case GetItem(index) => ok := DoGetItem(index);
        case GetItemByDBID(id) => ok := DoGetItemByDBID(id);
      }
    }

    /** The steps that delete a row or an item, or load the items. */
    method DoOnCollection(step: Step)
      requires Valid() && (step.DeleteAt? || step.DeleteByDBID? || step.Refresh?)
      modifies this`objects, this`loaded, accounts, store`rows
      ensures Valid() && fresh(Repr() - old(Repr())) && IsStep(step, old(Now()), Now())
    {
      var ok := false;
      match step {
        case DeleteAt(index) => ok := DoDeleteAt(index);
        case DeleteByDBID(id) => ok := DoDeleteByDBID(id);
        case Refresh(order, queryRan) =>
          if queryRan ==> IsQueryResult(order) {
            DoRefresh(order, queryRan);
          }
      }
    }

    /** The steps on a wrapper. */
    method DoOnHandle(h: AccountItem, step: Step)
      requires Valid() && h in handles
      requires step.PutAdminLevel? || step.PutAddress? || step.PutActive? || step.Save? || step.Delete?
      modifies h`inCollection, accounts, store, h.object_, this`addedBy, this`inserted
      ensures Valid() && IsStep(step, old(Now()), Now())
    {
      var ok := false;
      if step.Save? {
        ok := DoSave(h, step.allowed, step.inboxCreated);
      } else if step.Delete? {
        ok := DoDelete(h);
      } else {
        DoSet(h, step);
      }
    }

    method DoSet(h: AccountItem, step: Step)
      requires Valid() && h in handles && (step.PutAdminLevel? || step.PutAddress? || step.PutActive?)
      modifies h.object_
      ensures Valid() && IsStep(step, old(Now()), Now())
    {
      var ok := false;
      match step {
        case PutAdminLevel(_, level) => ok := DoPutAdminLevel(h, level);
        case PutAddress(_, address) => ok := DoPutAddress(h, address);
        case PutActive(_, active) => ok := DoPutActive(h, active);
      }
    }

    /** Every run of steps keeps the invariant, in which no wrapper is recorded twice, and is a run as described. */
    method Run(steps: seq<Step>)
      requires Valid()
      modifies Repr()
      ensures Valid() && fresh(Repr() - old(Repr())) && IsRun(steps, old(Now()), Now())
    {
      ghost var start := Now();
      if steps == [] {
        NoSteps(start);
      } else {
        Run(steps[..|steps| - 1]);
        DoLast(steps, start);
      }
    }

    /** The last step of a run. */
    method DoLast(steps: seq<Step>, ghost start: Snapshot)
      requires Valid() && steps != [] && IsRun(steps[..|steps| - 1], start, Now())
      modifies Repr()
      ensures Valid() && fresh(Repr() - old(Repr())) && IsRun(steps, start, Now())
    {
      ghost var before := Now();
      Do(steps[|steps| - 1]);
      LastStep(steps, start, before, Now());
    }

    /**
      A level that was set but not saved: a log-on that fails takes away every privilege, and the level is saved all the
      same.
      */
    method SaveUnprivileged(h: AccountItem) returns (ok: bool)
      requires Valid() && h in handles
      requires h.object_.adminLevel != SERVER_ADMIN && (h.object_.id == 0 || h.object_.id in store.rows)
      modifies Repr()
      ensures session.Level() == 0 && h.object_ == old(h.object_)
      ensures h.object_.id in store.rows
      ensures store.rows[h.object_.id].adminLevel == old(h.object_.adminLevel)
    {
      DoAuthenticate(true, true, false, false, false, None);
      ok := DoSave(h, true, true);
    }

    /** Such a wrapper can be had: an administrator adds an account and makes it a domain administrator's. */
    method AddUnsaved() returns (ok: bool)
      requires Valid() && session.Level() == SERVER_ADMIN
      modifies this`handles, this`objects
      ensures Valid() && fresh(Repr() - old(Repr()))
      ensures |handles| > 0 && handles[|handles| - 1].object_.id == 0
      ensures handles[|handles| - 1].object_.adminLevel == DOMAIN_ADMIN
    {
      ok := DoAdd();
      ok := DoPutAdminLevel(handles[|handles| - 1], DOMAIN_ADMIN);
    }
  }

  /** On a new server a row comes to the domain administrator's level by a save that nobody was logged on for. */
  method SavedByNobody() returns (server: Server, id: int)
    ensures server.session.Level() == 0
    ensures id in server.store.rows && server.store.rows[id].adminLevel == DOMAIN_ADMIN
  {
    server := new Server(1);
    server.DoAuthenticate(true, true, true, false, false, None);
    var ok := server.AddUnsaved();
    var h := server.handles[|server.handles| - 1];
    ok := server.SaveUnprivileged(h);
    id := h.object_.id;
  }
}
