/**
  The objects behind the scripting interface for accounts: shared account objects, the collection that holds them, the
  wrappers handed to scripts, the stored rows and the session. Each class follows its original; calls into the
  database and the password check appear as parameters.
  */
module ComAccounts {
  import opened Text

  const DOMAIN_ADMIN: int := 1
  const SERVER_ADMIN: int := 2

  datatype Row = Row(domainId: int, adminLevel: int, address: string, active: bool)

  class Account {
    var id: int
    var domainId: int
    var adminLevel: int
    var address: string
    var active: bool

    constructor (id: int, row: Row)
      ensures this.id == id && Stored() == row
    {
      this.id := id;
      domainId, adminLevel, address, active := row.domainId, row.adminLevel, row.address, row.active;
    }

    /** The row this object is saved as. */
    function Stored(): Row
      reads this
    {
      Row(domainId, adminLevel, address, active)
    }
  }

  class Session {
    var account: Account?

    constructor ()
      ensures account == null
    {
      account := null;
    }

    /** The level of the account, 0 for none. */
    function Level(): int
      reads this, account
    {
      if account == null then 0 else account.adminLevel
    }

    /** Somebody is logged on, at one of these levels. */
    predicate HasLevel(levels: set<int>)
      reads this, account
    {
      account != null && account.adminLevel in levels
    }

    predicate IsServerAdmin()
      reads this, account
    {
      account != null && account.adminLevel == SERVER_ADMIN
    }

    predicate IsDomainAdmin()
      reads this, account
    {
      IsServerAdmin() || (account != null && account.adminLevel == DOMAIN_ADMIN)
    }

    /**
      Logs on. For the administrator's name the stored administrator password decides; for other names `validated` is
      the account that the password check returned, if any.
      */
    method Authenticate(isAdministrator: bool, storedEmpty: bool, submittedEmpty: bool, storedIsPbkdf2: bool,
                        matches: bool, validated: Account?)
      modifies this
      ensures isAdministrator ==>
                (account != null <==> if storedEmpty then submittedEmpty else storedIsPbkdf2 && matches)
      ensures isAdministrator && account != null ==>
                fresh(account) && account.id == 0 && account.adminLevel == SERVER_ADMIN
      ensures !isAdministrator ==> account == validated
    {
      account := null;
      if isAdministrator {
        if storedEmpty {
          if submittedEmpty {
            account := new Account(0, Row(0, SERVER_ADMIN, "Administrator", false));
          }
        } else if storedIsPbkdf2 && matches {
          account := new Account(0, Row(0, SERVER_ADMIN, "Administrator", false));
        }
      } else {
        account := validated;
      }
    }
  }

  /** The accounts table. Every id below `nextId` has been issued, and none is issued twice. */
  class Store {
    var rows: map<int, Row>
    var nextId: int

    constructor ()
      ensures rows == map[] && nextId == 1
    {
      rows, nextId := map[], 1;
    }

    /**
      Saves an account object. `allowed` tells whether the checks and the statement succeed, `inboxCreated` whether the
      inbox of a new account could be created; without it the new row is deleted again, yet the save succeeds.
      */
    method SaveObject(account: Account, allowed: bool, inboxCreated: bool) returns (saved: bool)
      requires account.id >= 0 && nextId > 0
      modifies this, account`id
      ensures saved <==> allowed && (old(account.id) == 0 || old(account.id) in old(rows))
      ensures !saved ==> rows == old(rows) && nextId == old(nextId) && account.id == old(account.id)
      ensures saved && old(account.id) > 0 ==>
                && rows == old(rows)[account.id := account.Stored()] && nextId == old(nextId)
                && account.id == old(account.id)
      ensures saved && old(account.id) == 0 ==>
                && account.id == old(nextId) && nextId == old(nextId) + 1
                && rows == if inboxCreated then old(rows)[account.id := account.Stored()] else old(rows) - {account.id}
    {
      saved := false;
      if !allowed {
        return;
      }
      if account.id > 0 {
        if account.id !in rows {
          return;
        }
        rows := rows[account.id := account.Stored()];
      } else {
        account.id := nextId;
        nextId := nextId + 1;
        rows := rows[account.id := account.Stored()];
        if !inboxCreated {
          var deleted := DeleteObject(account.id);
          assert rows == old(rows) - {account.id};
        }
      }
      saved := true;
    }

    /** Deletes a row; refused for an object that was never saved. */
    method DeleteObject(id: int) returns (deleted: bool)
      modifies this`rows
      ensures deleted <==> id > 0
      ensures rows == if id > 0 then old(rows) - {id} else old(rows)
    {
      deleted := false;
      if id <= 0 {
        return;
      }
      rows := rows - {id};
      deleted := true;
    }
  }

  class Accounts {
    const domainId: int
    var items: seq<Account>

    constructor (domainId: int)
      ensures this.domainId == domainId && items == []
    {
      this.domainId, items := domainId, [];
    }

    method AddItem(account: Account)
      modifies this
      ensures items == old(items) + [account]
    {
      items := items + [account];
    }

    method GetItem(index: int) returns (account: Account?)
      ensures if 0 <= index < |items| then account == items[index] else account == null
    {
      if 0 <= index < |items| {
        return items[index];
      }
      account := null;
    }

    method GetItemByDBID(id: int) returns (account: Account?)
      ensures account == null ==> forall k :: 0 <= k < |items| ==> items[k].id != id
      ensures account != null ==> account in items && account.id == id
    {
      for k := 0 to |items|
        invariant forall j :: 0 <= j < k ==> items[j].id != id
      {
        if items[k].id == id {
          return items[k];
        }
      }
      account := null;
    }

    /** Deletes the first item with this id, and its row. */
    method DeleteItemByDBID(id: int, store: Store) returns (deleted: bool)
      modifies this, store`rows
      ensures deleted <==> exists k :: 0 <= k < |old(items)| && old(items)[k].id == id
      ensures !deleted ==> items == old(items) && store.rows == old(store.rows)
      ensures forall a :: a in items ==> a in old(items)
      ensures deleted ==> exists k :: 0 <= k < |old(items)| && old(items)[k].id == id
                                      && items == old(items)[..k] + old(items)[k + 1..]
      ensures deleted ==> store.rows == if id > 0 then old(store.rows) - {id} else old(store.rows)
    {
      for k := 0 to |items|
        invariant items == old(items) && store.rows == old(store.rows)
        invariant forall j :: 0 <= j < k ==> items[j].id != id
      {
        if items[k].id == id {
          var rowDeleted := store.DeleteObject(id);
          items := items[..k] + items[k + 1..];
          return true;
        }
      }
      deleted := false;
    }

    /**
      Reloads the collection. `order` holds the ids of the rows that the query returns, in its order; when the query
      fails the collection stays empty.
      */
    method Refresh(store: Store, order: seq<int>, queryRan: bool)
      requires forall j :: 0 <= j < |order| ==> order[j] in store.rows
      modifies this
      ensures |items| == if queryRan then |order| else 0
      ensures forall j :: 0 <= j < |items| ==>
                fresh(items[j]) && items[j].id == order[j] && items[j].Stored() == store.rows[order[j]]
    {
      items := [];
      if !queryRan {
        return;
      }
      for j := 0 to |order|
        invariant |items| == j
        invariant forall i :: 0 <= i < j ==>
                    fresh(items[i]) && items[i].id == order[i] && items[i].Stored() == store.rows[order[i]]
      {
        var account := new Account(order[j], store.rows[order[j]]);
        items := items + [account];
      }
    }
  }

  /** A wrapper handed to a script. `inCollection` means nothing while there is no parent collection. */
  class AccountItem {
    var object_: Account?
    var parent: Accounts?
    var inCollection: bool
    var session: Session

    constructor (object_: Account?, parent: Accounts?, inCollection: bool, session: Session)
      ensures this.object_ == object_ && this.parent == parent
      ensures this.inCollection == inCollection && this.session == session
    {
      this.object_, this.parent, this.inCollection, this.session := object_, parent, inCollection, session;
    }

    method AddToParentCollection()
      requires object_ != null
      modifies this`inCollection, parent
      ensures old(inCollection) || parent == null ==>
                inCollection == old(inCollection) && (parent != null ==> parent.items == old(parent.items))
      ensures !old(inCollection) && parent != null ==>
                inCollection && parent.items == old(parent.items) + [object_]
    {
      if inCollection || parent == null {
        return;
      }
      parent.AddItem(object_);
      inCollection := true;
    }

    /**
      Levels within the enumeration need an account of the session: one at the domain administrator's level or above
      for the lower two, at the server administrator's for the highest, unless the object is there already. Levels
      outside the enumeration are not checked.
      */
    method PutAdminLevel(level: int) returns (ok: bool)
      modifies object_
      ensures ok <==>
              && object_ != null
              && (level in {0, DOMAIN_ADMIN} ==> old(session.HasLevel({DOMAIN_ADMIN, SERVER_ADMIN})))
              && (level == SERVER_ADMIN ==>
                    old(object_.adminLevel) == SERVER_ADMIN || old(session.HasLevel({SERVER_ADMIN})))
      ensures object_ != null && old(session.account) == null ==>
                (ok <==> level !in {0, DOMAIN_ADMIN, SERVER_ADMIN} || level == SERVER_ADMIN == old(object_.adminLevel))
      ensures object_ != null ==>
                && object_.adminLevel == (if ok then level else old(object_.adminLevel))
                && object_.id == old(object_.id) && object_.domainId == old(object_.domainId)
                && object_.address == old(object_.address) && object_.active == old(object_.active)
    {
      ok := false;
      if object_ == null {
        return;
      }
      if level == 0 || level == DOMAIN_ADMIN {
        if !session.IsDomainAdmin() && !session.IsServerAdmin() {
          return;
        }
      } else if level == SERVER_ADMIN {
        if object_.adminLevel == SERVER_ADMIN {
          return true;
        }
        if !session.IsServerAdmin() {
          return;
        }
      }
      object_.adminLevel := level;
      ok := true;
    }

    /** A setter open to domain administrators; white space around the address is dropped. */
    method PutAddress(address: string) returns (ok: bool)
      modifies object_
      ensures ok <==> object_ != null && old(session.HasLevel({DOMAIN_ADMIN, SERVER_ADMIN}))
      ensures object_ != null ==>
                && object_.address == (if ok then Trim(address) else old(object_.address))
                && object_.id == old(object_.id) && object_.domainId == old(object_.domainId)
                && object_.adminLevel == old(object_.adminLevel) && object_.active == old(object_.active)
    {
      ok := false;
      if object_ == null || !session.IsDomainAdmin() {
        return;
      }
      object_.address := Trim(address);
      ok := true;
    }

    /** A setter open to everyone. */
    method PutActive(active: bool) returns (ok: bool)
      modifies object_
      ensures ok <==> object_ != null
      ensures object_ != null ==>
                && object_.active == active
                && object_.id == old(object_.id) && object_.domainId == old(object_.domainId)
                && object_.adminLevel == old(object_.adminLevel) && object_.address == old(object_.address)
    {
      ok := object_ != null;
      if ok {
        object_.active := active;
      }
    }

    /** Only a server administrator may save an object at that level; all others may be saved by anyone. */
    method Save(store: Store, allowed: bool, inboxCreated: bool) returns (ok: bool)
      requires object_ != null ==> object_.id >= 0
      requires store.nextId > 0
      modifies this`inCollection, parent, store, object_
      ensures object_ != null ==> object_.Stored() == old(object_.Stored())
      ensures ok <==>
              && object_ != null
              && (old(object_.adminLevel) == SERVER_ADMIN ==> old(session.HasLevel({SERVER_ADMIN})))
              && allowed && (old(object_.id) == 0 || old(object_.id) in old(store.rows))
      ensures !ok ==>
                && store.rows == old(store.rows) && store.nextId == old(store.nextId)
                && inCollection == old(inCollection)
                && (object_ != null ==> object_.id == old(object_.id))
                && (parent != null ==> parent.items == old(parent.items))
      ensures ok && old(object_.id) > 0 ==>
                && store.rows == old(store.rows)[object_.id := object_.Stored()] && store.nextId == old(store.nextId)
                && object_.id == old(object_.id)
      ensures ok && old(object_.id) == 0 ==>
                && object_.id == old(store.nextId) && store.nextId == old(store.nextId) + 1
                && store.rows == if inboxCreated then old(store.rows)[object_.id := object_.Stored()]
                                 else old(store.rows) - {object_.id}
      ensures ok && parent != null ==>
                inCollection && parent.items == old(parent.items) + if old(inCollection) then [] else [object_]
      ensures ok && parent == null ==> inCollection == old(inCollection)
    {
      ok := false;
      if object_ == null {
        return;
      }
      if !session.IsServerAdmin() {
        if object_.adminLevel == SERVER_ADMIN {
          return;
        }
      }
      var saved := store.SaveObject(object_, allowed, inboxCreated);
      if saved {
        AddToParentCollection();
        ok := true;
      }
    }

    /** Whether the parent collection has an item with the id of this object. */
    predicate IsListed()
      requires object_ != null && parent != null
      reads this, object_, parent, set a | parent != null && a in parent.items
    {
      exists k :: 0 <= k < |parent.items| && parent.items[k].id == object_.id
    }

    method Delete(store: Store) returns (ok: bool)
      modifies parent, store`rows
      ensures ok <==>
              && object_ != null && old(session.HasLevel({DOMAIN_ADMIN, SERVER_ADMIN}))
              && (parent != null || object_.id > 0)
      ensures !ok || (parent != null && !old(IsListed())) ==>
                store.rows == old(store.rows) && (parent != null ==> parent.items == old(parent.items))
      ensures parent != null ==> forall a :: a in parent.items ==> a in old(parent.items)
      ensures ok && (parent == null || old(IsListed())) ==>
                store.rows == if object_.id > 0 then old(store.rows) - {object_.id} else old(store.rows)
      ensures ok && parent != null && old(IsListed()) ==>
                exists k :: 0 <= k < |old(parent.items)| && old(parent.items)[k].id == object_.id
                            && parent.items == old(parent.items)[..k] + old(parent.items)[k + 1..]
    {
      ok := false;
      if object_ == null || !session.IsDomainAdmin() {
        return;
      }
      if parent == null {
        ok := store.DeleteObject(object_.id);
        return;
      }
      var deleted := parent.DeleteItemByDBID(object_.id, store);
      ok := true;
    }
  }
}
