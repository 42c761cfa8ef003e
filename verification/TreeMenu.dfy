/**
  The administration menu: one global counter hands out node ids while nested loops append nodes that name their
  parent by id, some by a fixed number. Every node is modelled with the path it shows (`Place`), so that the right
  parent of a node can be stated without ids.
  */
module TreeMenu {
  type Id = int

  datatype Domain = Domain(id: Id, accounts: seq<Id>, aliases: seq<Id>, lists: seq<Id>)

  /** What the page is built for: the level of the user, the data he may see and the selected domain and account. */
  datatype Input = Input(
    level: int,
    userAccount: Id,
    userDomain: Domain,
    domains: seq<Domain>,
    routes: seq<Id>,
    ranges: seq<Id>,
    relays: seq<Id>,
    currentDomain: Id,
    currentAccount: Id)

  const ADMIN_USER: int := 0
  const ADMIN_DOMAIN: int := 1
  const ADMIN_SERVER: int := 2

  datatype Caption =
    | Welcome | Logout | Status | Domains | Rules | Settings | Protocols | Smtp | AntiSpam | DnsBlacklists
    | SurblServers | Greylisting | WhiteListing | AntiVirus | Routes | Pop3 | Imap | Logging | Advanced
    | SslCertificates | AutoBan | IpRanges | IncomingRelays | Mirror | Performance | ServerMessages | SslTls
    | Scripts | TcpIpPorts | Utilities | Backup | Diagnostics | OneDomain | Accounts | Aliases | Lists | OneAccount
    | External | OneAlias | OneList | Members | OneRoute | Addresses | OneRange | OneRelay

  /** What a node shows and where it belongs: the path from the top of the menu. */
  datatype Place =
    | Top(caption: Caption)
    | Under(parent: Place, caption: Caption)
    | Item(parent: Place, caption: Caption, id: Id)

  /** A call `d.add(id, parent, ...)` of the page. */
  datatype Node = Node(id: int, parent: int, place: Place)

  const WELCOME: Place := Top(Welcome)
  const DOMAINS: Place := Under(WELCOME, Domains)
  const SETTINGS: Place := Under(WELCOME, Settings)
  const PROTOCOLS: Place := Under(SETTINGS, Protocols)
  const SMTP: Place := Under(PROTOCOLS, Smtp)
  const ROUTES: Place := Under(SMTP, Routes)
  const ANTI_SPAM: Place := Under(SETTINGS, AntiSpam)
  const ADVANCED: Place := Under(SETTINGS, Advanced)
  const IP_RANGES: Place := Under(ADVANCED, IpRanges)
  const RELAYS: Place := Under(ADVANCED, IncomingRelays)
  const UTILITIES: Place := Under(WELCOME, Utilities)

  // --- what is shown, in order ----------------------------------------------------------------------

  function AccountPlaces(accountsPlace: Place, accounts: seq<Id>, current: Id): seq<Place> {
    if accounts == [] then []
    else
      var a := accounts[|accounts| - 1];
      var place := Item(accountsPlace, OneAccount, a);
      AccountPlaces(accountsPlace, accounts[..|accounts| - 1], current) + [place]
      + if current == a then [Under(place, External)] else []
  }

  /** One node for each item. */
  function ItemPlaces(parent: Place, caption: Caption, items: seq<Id>): seq<Place> {
    if items == [] then []
    else ItemPlaces(parent, caption, items[..|items| - 1]) + [Item(parent, caption, items[|items| - 1])]
  }

  /** Two nodes for each item: the item and a node under it. */
  function PairPlaces(parent: Place, caption: Caption, items: seq<Id>, below: Caption): seq<Place> {
    if items == [] then []
    else
      var place := Item(parent, caption, items[|items| - 1]);
      PairPlaces(parent, caption, items[..|items| - 1], below) + [place, Under(place, below)]
  }

  predicate IsExpanded(i: Input, d: Domain) {
    i.level != ADMIN_SERVER || i.currentDomain == d.id
  }

  function ContentPlaces(i: Input, d: Domain, place: Place): seq<Place> {
    var accounts, aliases, lists := Under(place, Accounts), Under(place, Aliases), Under(place, Lists);
    [accounts] + AccountPlaces(accounts, d.accounts, i.currentAccount)
    + [aliases] + ItemPlaces(aliases, OneAlias, d.aliases)
    + [lists] + PairPlaces(lists, OneList, d.lists, Members)
  }

  function DomainPlaces(i: Input, d: Domain): seq<Place> {
    var place := Item(DOMAINS, OneDomain, d.id);
    [place] + if IsExpanded(i, d) then ContentPlaces(i, d, place) else []
  }

  function DomainsPlaces(i: Input, ds: seq<Domain>): seq<Place> {
    if ds == [] then [] else DomainsPlaces(i, ds[..|ds| - 1]) + DomainPlaces(i, ds[|ds| - 1])
  }

  const ANTI_SPAM_PLACES: seq<Place> :=
    [ANTI_SPAM, Under(ANTI_SPAM, DnsBlacklists), Under(ANTI_SPAM, SurblServers), Under(ANTI_SPAM, Greylisting),
     Under(ANTI_SPAM, WhiteListing)]

  const BEFORE_ROUTES: seq<Place> :=
    [Under(WELCOME, Rules), SETTINGS, PROTOCOLS, SMTP] + ANTI_SPAM_PLACES + [Under(SETTINGS, AntiVirus), ROUTES]

  const AFTER_ROUTES: seq<Place> :=
    [Under(PROTOCOLS, Pop3), Under(PROTOCOLS, Imap), Under(SETTINGS, Logging), ADVANCED,
     Under(ADVANCED, SslCertificates), Under(ADVANCED, AutoBan), IP_RANGES]

  const AFTER_RELAYS: seq<Place> :=
    [Under(ADVANCED, Mirror), Under(ADVANCED, Performance), Under(ADVANCED, ServerMessages), Under(ADVANCED, SslTls),
     Under(ADVANCED, Scripts), Under(ADVANCED, TcpIpPorts), UTILITIES, Under(UTILITIES, Backup),
     Under(UTILITIES, Diagnostics)]

  function SettingsPlaces(i: Input): seq<Place> {
    BEFORE_ROUTES + PairPlaces(ROUTES, OneRoute, i.routes, Addresses) + AFTER_ROUTES + AdvancedPlaces(i)
  }

  function AdvancedPlaces(i: Input): seq<Place> {
    ItemPlaces(IP_RANGES, OneRange, i.ranges) + [RELAYS] + ItemPlaces(RELAYS, OneRelay, i.relays) + AFTER_RELAYS
  }

  function ServerPlaces(i: Input): seq<Place> {
    [Under(WELCOME, Status), DOMAINS] + DomainsPlaces(i, i.domains) + SettingsPlaces(i)
  }

  function LevelPlaces(i: Input): seq<Place> {
    if i.level == ADMIN_USER then
      var own := Item(WELCOME, OneAccount, i.userAccount);
      [own, Under(own, External)]
    else if i.level == ADMIN_DOMAIN then [DOMAINS] + DomainPlaces(i, i.userDomain)
    else if i.level == ADMIN_SERVER then ServerPlaces(i)
    else []
  }

  /** The whole menu, in the order of the page. */
  function MenuPlaces(i: Input): seq<Place> {
    [WELCOME] + LevelPlaces(i) + [Top(Logout)]
  }

  lemma Associate(a: seq<Place>, b: seq<Place>, c: seq<Place>)
    ensures a + (b + c) == a + b + c
  {
  }

  lemma OneMoreDomain(i: Input, before: seq<Place>, k: nat)
    requires k < |i.domains|
    ensures before + DomainsPlaces(i, i.domains[..k + 1])
         == before + DomainsPlaces(i, i.domains[..k]) + DomainPlaces(i, i.domains[k])
  {
    assert i.domains[..k + 1][..k] == i.domains[..k];
  }

  // --- what it means to be well placed --------------------------------------------------------------

  /** A place at the top has parent -1; any other has the id of an earlier node that shows its parent. */
  predicate IsPlaced(shown: seq<Place>, k: nat, parent: int)
    requires k < |shown|
  {
    if shown[k].Top? then parent == -1 else 0 <= parent < k && shown[parent] == shown[k].parent
  }

  /** The nodes show these places; the k-th has id k, and each is placed among those before it. */
  ghost predicate Renders(nodes: seq<Node>, shown: seq<Place>) {
    |nodes| == |shown| &&
    forall k {:trigger nodes[k]} :: 0 <= k < |nodes| ==>
      nodes[k].id == k && nodes[k].place == shown[k] && IsPlaced(shown, k, nodes[k].parent)
  }

  // --- the page -------------------------------------------------------------------------------------

  class Page {
    var dtitem: int
    var dtree: seq<Node>
    var domainRoot: int
    /** What the nodes show. */
    ghost var shown: seq<Place>

    ghost predicate Sound()
      reads this
    {
      Renders(dtree, shown)
    }

    /** Between statements the counter is in step with the nodes. */
    ghost predicate Valid()
      reads this
    {
      dtitem == |dtree| && Sound()
    }

    /** Whether the node with this id has been emitted and shows this. */
    ghost predicate Has(id: int, place: Place)
      reads this
    {
      0 <= id < |shown| && shown[id] == place
    }

    constructor ()
      ensures Valid() && shown == []
    {
      dtitem, dtree, domainRoot, shown := 0, [], 0, [];
    }

    /** `$dtitem++` */
    method NextId() returns (id: int)
      modifies this`dtitem
      ensures id == old(dtitem) && dtitem == id + 1
    {
      id := dtitem;
      dtitem := dtitem + 1;
    }

    /** `$dtree .= "d.add(id, parent, ...)"` */
    method Emit(id: int, parent: int, place: Place)
      requires Sound() && id == |dtree|
      requires if place.Top? then parent == -1 else Has(parent, place.parent)
      modifies this`dtree, this`shown
      ensures Sound() && shown == old(shown) + [place]
    {
      dtree := dtree + [Node(id, parent, place)];
      shown := shown + [place];
    }

    /** A node whose id is taken just before it is emitted. */
    method Add(parent: int, place: Place) returns (id: int)
      requires Valid()
      requires if place.Top? then parent == -1 else Has(parent, place.parent)
      modifies this`dtree, this`dtitem, this`shown
      ensures Valid() && id == |old(shown)| && shown == old(shown) + [place]
    {
      id := NextId();
      Emit(id, parent, place);
    }

    /** The original's function of this name; the caller has taken the id of the domain's node. */
    method GetStringForDomain(i: Input, d: Domain, parentId: int)
      requires Sound() && dtitem == |dtree| + 1 && domainRoot == |dtree|
      requires Has(parentId, DOMAINS)
      modifies this`dtree, this`dtitem, this`shown
      ensures Valid() && shown == old(shown) + DomainPlaces(i, d)
    {
      ghost var place := Item(DOMAINS, OneDomain, d.id);
      Emit(domainRoot, parentId, Item(DOMAINS, OneDomain, d.id));
      if i.currentDomain != d.id && i.level == ADMIN_SERVER {
        return;
      }
      AddContents(i, d);
    }

    method AddContents(i: Input, d: Domain)
      requires Valid() && Has(domainRoot, Item(DOMAINS, OneDomain, d.id))
      modifies this`dtree, this`dtitem, this`shown
      ensures Valid() && shown == old(shown) + ContentPlaces(i, d, Item(DOMAINS, OneDomain, d.id))
    {
      var place := Item(DOMAINS, OneDomain, d.id);
      var accounts, aliases, lists := Under(place, Accounts), Under(place, Aliases), Under(place, Lists);
      var accountsRoot := Add(domainRoot, accounts);
      AddAccounts(accountsRoot, accounts, d.accounts, i.currentAccount);
      var aliasesRoot := Add(domainRoot, aliases);
      AddItems(aliasesRoot, aliases, OneAlias, d.aliases);
      var listsRoot := Add(domainRoot, lists);
      AddLists(listsRoot, lists, d.lists);
    }

    method AddAccounts(accountsRoot: int, accountsPlace: Place, accounts: seq<Id>, currentAccount: Id)
      requires Valid() && Has(accountsRoot, accountsPlace)
      modifies this`dtree, this`dtitem, this`shown
      ensures Valid() && shown == old(shown) + AccountPlaces(accountsPlace, accounts, currentAccount)
    {
      for j := 0 to |accounts|
        invariant Valid()
        invariant shown == old(shown) + AccountPlaces(accountsPlace, accounts[..j], currentAccount)
      {
        assert accounts[..j + 1][..j] == accounts[..j];
        var place := Item(accountsPlace, OneAccount, accounts[j]);
        var di := NextId();
        Emit(di, accountsRoot, place);
        if currentAccount == accounts[j] {
          var external := Add(di, Under(place, External));
        }
      }
      assert accounts[..|accounts|] == accounts;
    }

    /** The loops over aliases, IP ranges and relays. */
    method AddItems(root: int, parent: Place, caption: Caption, items: seq<Id>)
      requires Valid() && Has(root, parent)
      modifies this`dtree, this`dtitem, this`shown
      ensures Valid() && shown == old(shown) + ItemPlaces(parent, caption, items)
    {
      for j := 0 to |items|
        invariant Valid()
        invariant shown == old(shown) + ItemPlaces(parent, caption, items[..j])
      {
        assert items[..j + 1][..j] == items[..j];
        var di := NextId();
        Emit(di, root, Item(parent, caption, items[j]));
      }
      assert items[..|items|] == items;
    }

    method AddLists(listsRoot: int, listsPlace: Place, lists: seq<Id>)
      requires Valid() && Has(listsRoot, listsPlace)
      modifies this`dtree, this`dtitem, this`shown
      ensures Valid() && shown == old(shown) + PairPlaces(listsPlace, OneList, lists, Members)
    {
      for j := 0 to |lists|
        invariant Valid()
        invariant shown == old(shown) + PairPlaces(listsPlace, OneList, lists[..j], Members)
      {
        assert lists[..j + 1][..j] == lists[..j];
        var place := Item(listsPlace, OneList, lists[j]);
        var di := NextId();
        Emit(di, listsRoot, place);
        var members := Add(di, Under(place, Members));
      }
      assert lists[..|lists|] == lists;
    }

    /** Takes both ids of a route before it emits its nodes. */
    method AddRoutes(routesRoot: int, routes: seq<Id>)
      requires Valid() && Has(routesRoot, ROUTES)
      modifies this`dtree, this`dtitem, this`shown
      ensures Valid() && shown == old(shown) + PairPlaces(ROUTES, OneRoute, routes, Addresses)
    {
      for k := 0 to |routes|
        invariant Valid()
        invariant shown == old(shown) + PairPlaces(ROUTES, OneRoute, routes[..k], Addresses)
      {
        assert routes[..k + 1][..k] == routes[..k];
        var place := Item(ROUTES, OneRoute, routes[k]);
        var di := NextId();
        var dsub := NextId();
        Emit(di, routesRoot, place);
        Emit(dsub, di, Under(place, Addresses));
      }
      assert routes[..|routes|] == routes;
    }

    /** The page from its first node to its last. */
    method Build(i: Input)
      requires Valid() && shown == []
      modifies this
      ensures Valid() && shown == MenuPlaces(i)
    {
      var welcome := Add(-1, WELCOME);
      if i.level == ADMIN_USER {
        BuildUser(i);
      }
      if i.level == ADMIN_DOMAIN {
        BuildDomain(i);
      }
      if i.level == ADMIN_SERVER {
        BuildServer(i);
      }
      assert shown == [WELCOME] + LevelPlaces(i);
      var logout := Add(-1, Top(Logout));
    }

    method BuildUser(i: Input)
      requires Valid() && shown == [WELCOME] && i.level == ADMIN_USER
      modifies this
      ensures Valid() && shown == [WELCOME] + LevelPlaces(i)
    {
      var own := Item(WELCOME, OneAccount, i.userAccount);
      var di := NextId();
      Emit(di, 0, own);
      var external := Add(di, Under(own, External));
    }

    method BuildDomain(i: Input)
      requires Valid() && shown == [WELCOME] && i.level == ADMIN_DOMAIN
      modifies this
      ensures Valid() && shown == [WELCOME] + ([DOMAINS] + DomainPlaces(i, i.userDomain))
    {
      var domainsNode := Add(0, DOMAINS);
      domainRoot := NextId();
      GetStringForDomain(i, i.userDomain, 1);
      Associate([WELCOME], [DOMAINS], DomainPlaces(i, i.userDomain));
    }

    method BuildServer(i: Input)
      requires Valid() && shown == [WELCOME]
      modifies this
      ensures Valid() && shown == [WELCOME] + ServerPlaces(i)
    {
      var status := Add(0, Under(WELCOME, Status));
      var domainsNode := Add(0, DOMAINS);
      AddDomains(i);
      AddSettings(i);
    }

    method AddSettings(i: Input)
      requires Valid() && Has(0, WELCOME)
      modifies this`dtree, this`dtitem, this`shown
      ensures Valid() && shown == old(shown) + SettingsPlaces(i)
    {
      var settingsRoot, protocolsRoot, routesRoot := AddBeforeRoutes();
      AddRoutes(routesRoot, i.routes);
      var advancedRoot, rangesRoot := AddAfterRoutes(settingsRoot, protocolsRoot);
      AddAdvanced(i, advancedRoot, rangesRoot);
    }

    method AddAdvanced(i: Input, advancedRoot: int, rangesRoot: int)
      requires Valid() && Has(0, WELCOME) && Has(advancedRoot, ADVANCED) && Has(rangesRoot, IP_RANGES)
      modifies this`dtree, this`dtitem, this`shown
      ensures Valid() && shown == old(shown) + AdvancedPlaces(i)
    {
      AddItems(rangesRoot, IP_RANGES, OneRange, i.ranges);
      var relaysRoot := Add(advancedRoot, RELAYS);
      AddItems(relaysRoot, RELAYS, OneRelay, i.relays);
      AddAfterRelays(advancedRoot);
    }

    method AddDomains(i: Input)
      requires Valid() && Has(2, DOMAINS)
      modifies this
      ensures Valid() && shown == old(shown) + DomainsPlaces(i, i.domains)
    {
      for k := 0 to |i.domains|
        invariant Valid() && Has(2, DOMAINS)
        invariant shown == old(shown) + DomainsPlaces(i, i.domains[..k])
      {
        OneMoreDomain(i, old(shown), k);
        domainRoot := NextId();
        GetStringForDomain(i, i.domains[k], 2);
      }
      assert i.domains[..|i.domains|] == i.domains;
    }

    method AddBeforeRoutes() returns (settingsRoot: int, protocolsRoot: int, routesRoot: int)
      requires Valid() && Has(0, WELCOME)
      modifies this`dtree, this`dtitem, this`shown
      ensures Valid() && shown == old(shown) + BEFORE_ROUTES
      ensures Has(settingsRoot, SETTINGS) && Has(protocolsRoot, PROTOCOLS) && Has(routesRoot, ROUTES)
    {
      var rules := Add(0, Under(WELCOME, Rules));
      settingsRoot := Add(0, SETTINGS);
      protocolsRoot := Add(settingsRoot, PROTOCOLS);
      var smtpRoot := Add(protocolsRoot, SMTP);
      AddAntiSpam(settingsRoot);
      var antiVirus := Add(settingsRoot, Under(SETTINGS, AntiVirus));
      routesRoot := Add(smtpRoot, ROUTES);
    }

    method AddAntiSpam(settingsRoot: int)
      requires Valid() && Has(settingsRoot, SETTINGS)
      modifies this`dtree, this`dtitem, this`shown
      ensures Valid() && shown == old(shown) + ANTI_SPAM_PLACES
    {
      var antiSpamRoot := Add(settingsRoot, ANTI_SPAM);
      var id := Add(antiSpamRoot, Under(ANTI_SPAM, DnsBlacklists));
      id := Add(antiSpamRoot, Under(ANTI_SPAM, SurblServers));
      id := Add(antiSpamRoot, Under(ANTI_SPAM, Greylisting));
      id := Add(antiSpamRoot, Under(ANTI_SPAM, WhiteListing));
    }

    method AddAfterRoutes(settingsRoot: int, protocolsRoot: int) returns (advancedRoot: int, rangesRoot: int)
      requires Valid() && Has(settingsRoot, SETTINGS) && Has(protocolsRoot, PROTOCOLS)
      modifies this`dtree, this`dtitem, this`shown
      ensures Valid() && shown == old(shown) + AFTER_ROUTES
      ensures Has(advancedRoot, ADVANCED) && Has(rangesRoot, IP_RANGES)
    {
      var id := Add(protocolsRoot, Under(PROTOCOLS, Pop3));
      id := Add(protocolsRoot, Under(PROTOCOLS, Imap));
      id := Add(settingsRoot, Under(SETTINGS, Logging));
      advancedRoot := Add(settingsRoot, ADVANCED);
      id := Add(advancedRoot, Under(ADVANCED, SslCertificates));
      id := Add(advancedRoot, Under(ADVANCED, AutoBan));
      rangesRoot := Add(advancedRoot, IP_RANGES);
    }

    method AddAfterRelays(advancedRoot: int)
      requires Valid() && Has(advancedRoot, ADVANCED) && Has(0, WELCOME)
      modifies this`dtree, this`dtitem, this`shown
      ensures Valid() && shown == old(shown) + AFTER_RELAYS
    {
      var id := Add(advancedRoot, Under(ADVANCED, Mirror));
      id := Add(advancedRoot, Under(ADVANCED, Performance));
      id := Add(advancedRoot, Under(ADVANCED, ServerMessages));
      id := Add(advancedRoot, Under(ADVANCED, SslTls));
      id := Add(advancedRoot, Under(ADVANCED, Scripts));
      id := Add(advancedRoot, Under(ADVANCED, TcpIpPorts));
      var utilitiesRoot := Add(0, UTILITIES);
      id := Add(utilitiesRoot, Under(UTILITIES, Backup));
      id := Add(utilitiesRoot, Under(UTILITIES, Diagnostics));
    }
  }

  // --- the shape of the menu ------------------------------------------------------------------------

  /** The ids met when following parents from a node up to the top. */
  ghost function Ancestors(nodes: seq<Node>, shown: seq<Place>, k: nat): (path: seq<int>)
    requires Renders(nodes, shown) && k < |nodes|
    ensures forall j :: 0 <= j < |path| ==> 0 <= path[j] < |nodes|
  {
    var parent := nodes[k].parent;
    if parent == -1 then [k] else [k] + Ancestors(nodes, shown, parent)
  }

  /** Every place hangs below the top of its path. */
  function TopOf(p: Place): Place {
    if p.Top? then p else TopOf(p.parent)
  }

  /** Only the last place is the logout, and every other one hangs below the first. */
  predicate IsOneTree(shown: seq<Place>) {
    && |shown| >= 2 && shown[0] == WELCOME && shown[|shown| - 1] == Top(Logout)
    && forall k :: 0 < k < |shown| - 1 ==> !shown[k].Top? && TopOf(shown[k]) == WELCOME
  }

  lemma {:induction false} PathEndsAtTop(nodes: seq<Node>, shown: seq<Place>, k: nat)
    requires Renders(nodes, shown) && k < |nodes|
    ensures var path := Ancestors(nodes, shown, k);
            var last := path[|path| - 1];
            shown[last].Top? && shown[last] == TopOf(shown[k])
  {
    var parent := nodes[k].parent;
    if parent != -1 {
      PathEndsAtTop(nodes, shown, parent);
    }
  }

  /**
    The menu is a forest of two trees: ids count up from zero, parents come first, exactly the first and the last node
    stand at the top, and following parents from any other node ends at node 0.
    */
  lemma MenuIsForest(i: Input, nodes: seq<Node>)
    requires Renders(nodes, MenuPlaces(i))
    ensures forall k :: 0 <= k < |nodes| ==> nodes[k].id == k && nodes[k].parent < k
    ensures forall k :: 0 <= k < |nodes| ==> (nodes[k].parent == -1 <==> k == 0 || k == |nodes| - 1)
    ensures forall k :: 0 <= k < |nodes| - 1 ==>
              var path := Ancestors(nodes, MenuPlaces(i), k); path[|path| - 1] == 0
  {
    var shown := MenuPlaces(i);
    MenuIsOneTree(i);
    forall k | 0 <= k < |nodes|
      ensures nodes[k].id == k && nodes[k].parent < k && (nodes[k].parent == -1 <==> k == 0 || k == |nodes| - 1)
    {
      assert IsPlaced(shown, k, nodes[k].parent);
    }
    forall k | 0 <= k < |nodes| - 1 ensures var path := Ancestors(nodes, shown, k); path[|path| - 1] == 0 {
      PathEndsAtTop(nodes, shown, k);
    }
  }

  /** Places below the first node. */
  predicate AllBelow(shown: seq<Place>) {
    forall k :: 0 <= k < |shown| ==> !shown[k].Top? && TopOf(shown[k]) == WELCOME
  }

  lemma {:induction false} ItemsBelow(parent: Place, caption: Caption, items: seq<Id>)
    requires TopOf(parent) == WELCOME
    ensures AllBelow(ItemPlaces(parent, caption, items)) && |ItemPlaces(parent, caption, items)| == |items|
  {
    if items != [] { ItemsBelow(parent, caption, items[..|items| - 1]); }
  }

  lemma {:induction false} PairsBelow(parent: Place, caption: Caption, items: seq<Id>, below: Caption)
    requires TopOf(parent) == WELCOME
    ensures AllBelow(PairPlaces(parent, caption, items, below))
    ensures |PairPlaces(parent, caption, items, below)| == 2 * |items|
  {
    if items != [] { PairsBelow(parent, caption, items[..|items| - 1], below); }
  }

  /** How often an id occurs among the items. */
  function Count(items: seq<Id>, id: Id): nat {
    if items == [] then 0
    else Count(items[..|items| - 1], id) + if items[|items| - 1] == id then 1 else 0
  }

  lemma {:induction false} AccountsBelow(parent: Place, accounts: seq<Id>, current: Id)
    requires TopOf(parent) == WELCOME
    ensures AllBelow(AccountPlaces(parent, accounts, current))
    ensures |AccountPlaces(parent, accounts, current)| == |accounts| + Count(accounts, current)
  {
    if accounts != [] { AccountsBelow(parent, accounts[..|accounts| - 1], current); }
  }

  /** The nodes below an expanded domain: three folders, its items, and one more for each account that is selected. */
  function ContentSize(i: Input, d: Domain): nat {
    3 + |d.accounts| + Count(d.accounts, i.currentAccount) + |d.aliases| + 2 * |d.lists|
  }

  lemma DomainBelow(i: Input, d: Domain)
    ensures AllBelow(DomainPlaces(i, d))
    ensures |DomainPlaces(i, d)| == 1 + if IsExpanded(i, d) then ContentSize(i, d) else 0
  {
    var place := Item(DOMAINS, OneDomain, d.id);
    assert TopOf(DOMAINS) == WELCOME;
    AccountsBelow(Under(place, Accounts), d.accounts, i.currentAccount);
    ItemsBelow(Under(place, Aliases), OneAlias, d.aliases);
    PairsBelow(Under(place, Lists), OneList, d.lists, Members);
  }

  /** The nodes for the domains: one each, and the contents of the expanded ones. */
  function DomainsSize(i: Input, ds: seq<Domain>): nat {
    if ds == [] then 0
    else
      var d := ds[|ds| - 1];
      DomainsSize(i, ds[..|ds| - 1]) + 1 + if IsExpanded(i, d) then ContentSize(i, d) else 0
  }

  lemma {:induction false} DomainsBelow(i: Input, ds: seq<Domain>)
    ensures AllBelow(DomainsPlaces(i, ds)) && |DomainsPlaces(i, ds)| == DomainsSize(i, ds)
  {
    if ds != [] {
      DomainsBelow(i, ds[..|ds| - 1]);
      DomainBelow(i, ds[|ds| - 1]);
    }
  }

  lemma SettingsBelow(i: Input)
    ensures AllBelow(SettingsPlaces(i))
    ensures |SettingsPlaces(i)| == 28 + 2 * |i.routes| + |i.ranges| + |i.relays|
  {
    PairsBelow(ROUTES, OneRoute, i.routes, Addresses);
    ItemsBelow(IP_RANGES, OneRange, i.ranges);
    ItemsBelow(RELAYS, OneRelay, i.relays);
    assert AllBelow(BEFORE_ROUTES) && AllBelow(AFTER_ROUTES) && AllBelow([RELAYS]) && AllBelow(AFTER_RELAYS);
  }

  lemma MenuIsOneTree(i: Input)
    ensures IsOneTree(MenuPlaces(i))
  {
    DomainBelow(i, i.userDomain);
    DomainsBelow(i, i.domains);
    SettingsBelow(i);
    BelowAppend([DOMAINS], DomainPlaces(i, i.userDomain));
    BelowAppend([Under(WELCOME, Status), DOMAINS], DomainsPlaces(i, i.domains));
    BelowAppend([Under(WELCOME, Status), DOMAINS] + DomainsPlaces(i, i.domains), SettingsPlaces(i));
    var own := Item(WELCOME, OneAccount, i.userAccount);
    assert TopOf(own) == TopOf(WELCOME) == WELCOME;
    assert TopOf(Under(own, External)) == TopOf(own);
    assert AllBelow(LevelPlaces(i));
  }

  lemma BelowAppend(a: seq<Place>, b: seq<Place>)
    requires AllBelow(a) && AllBelow(b)
    ensures AllBelow(a + b)
  {
  }

  // --- how many nodes -------------------------------------------------------------------------------

  predicate DistinctIds(ds: seq<Domain>) {
    forall j, k :: 0 <= j < k < |ds| ==> ds[j].id != ds[k].id
  }

  lemma {:induction false} NoneExpanded(i: Input, ds: seq<Domain>)
    requires i.level == ADMIN_SERVER && forall k :: 0 <= k < |ds| ==> ds[k].id != i.currentDomain
    ensures DomainsSize(i, ds) == |ds|
  {
    if ds != [] { NoneExpanded(i, ds[..|ds| - 1]); }
  }

  lemma {:induction false} OneExpanded(i: Input, ds: seq<Domain>, e: nat)
    requires i.level == ADMIN_SERVER && DistinctIds(ds) && e < |ds| && ds[e].id == i.currentDomain
    ensures DomainsSize(i, ds) == |ds| + ContentSize(i, ds[e])
  {
    var n := |ds| - 1;
    if e == n {
      NoneExpanded(i, ds[..n]);
    } else {
      OneExpanded(i, ds[..n], e);
      assert ds[n].id != ds[e].id;
    }
  }

  /** For a server administrator and distinct domain ids, at most the selected domain is expanded. */
  lemma ServerMenuSize(i: Input)
    requires i.level == ADMIN_SERVER && DistinctIds(i.domains)
    ensures var fixed := 32 + |i.domains| + 2 * |i.routes| + |i.ranges| + |i.relays|;
            |MenuPlaces(i)| ==
            if exists e :: 0 <= e < |i.domains| && i.domains[e].id == i.currentDomain
            then var e :| 0 <= e < |i.domains| && i.domains[e].id == i.currentDomain;
                 fixed + ContentSize(i, i.domains[e])
            else fixed
  {
    DomainsBelow(i, i.domains);
    SettingsBelow(i);
    if e :| 0 <= e < |i.domains| && i.domains[e].id == i.currentDomain {
      OneExpanded(i, i.domains, e);
    } else {
      NoneExpanded(i, i.domains);
    }
  }

  /** Accounts with distinct ids give the selected account at most one extra node. */
  lemma {:induction false} CountDistinct(items: seq<Id>, id: Id)
    requires forall j, k :: 0 <= j < k < |items| ==> items[j] != items[k]
    ensures Count(items, id) == if id in items then 1 else 0
  {
    if items != [] {
      var n := |items| - 1;
      CountDistinct(items[..n], id);
      assert items == items[..n] + [items[n]];
      assert items[n] !in items[..n];
    }
  }

  // --- the page is determined -----------------------------------------------------------------------

  predicate Distinct(ids: seq<Id>) {
    forall j, k :: 0 <= j < k < |ids| ==> ids[j] != ids[k]
  }

  predicate DistinctDomain(d: Domain) {
    Distinct(d.accounts) && Distinct(d.aliases) && Distinct(d.lists)
  }

  /** No two domains share an id, nor two items of one list. */
  predicate DistinctInput(i: Input) {
    && DistinctIds(i.domains) && DistinctDomain(i.userDomain)
    && (forall k :: 0 <= k < |i.domains| ==> DistinctDomain(i.domains[k]))
    && Distinct(i.routes) && Distinct(i.ranges) && Distinct(i.relays)
  }

  predicate NoRepeats(shown: seq<Place>) {
    forall j, k :: 0 <= j < k < |shown| ==> shown[j] != shown[k]
  }

  /** The part of the menu in which a caption is used, counted from the top of the page. */
  function Part(c: Caption): nat {
    match c
    case Welcome => 0
    case Status => 1
    case Domains => 2
    case OneDomain => 3
    case Accounts => 4
    case OneAccount | External => 5
    case Aliases => 6
    case OneAlias => 7
    case Lists => 8
    case OneList | Members => 9
    case OneRoute | Addresses => 11
    case Pop3 | Imap | Logging | Advanced | SslCertificates | AutoBan | IpRanges => 12
    case OneRange => 13
    case IncomingRelays => 14
    case OneRelay => 15
    case Mirror | Performance | ServerMessages | SslTls | Scripts | TcpIpPorts | Utilities | Backup | Diagnostics => 16
    case Logout => 17
    case _ => 10
  }

  /** Nothing is shown twice, and every caption belongs to these parts of the menu. */
  predicate Once(shown: seq<Place>, from: nat, to: nat) {
    NoRepeats(shown) && forall k :: 0 <= k < |shown| ==> from <= Part(shown[k].caption) <= to
  }

  lemma AppendOnce(a: seq<Place>, b: seq<Place>, from: nat, middle: nat, to: nat)
    requires from <= middle < to && Once(a, from, middle) && Once(b, middle + 1, to)
    ensures Once(a + b, from, to)
  {
    forall j, k | 0 <= j < |a| && 0 <= k < |b| ensures a[j] != b[k] {
      assert Part(a[j].caption) <= middle < Part(b[k].caption);
    }
  }

  lemma {:induction false} ItemsOnce(parent: Place, caption: Caption, items: seq<Id>)
    requires Distinct(items)
    ensures Once(ItemPlaces(parent, caption, items), Part(caption), Part(caption))
    ensures forall p :: p in ItemPlaces(parent, caption, items) ==> p.Item? && p.id in items
  {
    if items != [] {
      ItemsOnce(parent, caption, items[..|items| - 1]);
    }
  }

  /** The place shows one of these items below the parent, or stands directly under one. */
  predicate IsOf(p: Place, parent: Place, ids: seq<Id>) {
    if p.Item? then p.parent == parent && p.id in ids
    else p.Under? && p.parent.Item? && p.parent.parent == parent && p.parent.id in ids
  }

  lemma PairAfter(before: seq<Place>, pair: seq<Place>, parent: Place, ids: seq<Id>, id: Id)
    requires NoRepeats(before) && forall k :: 0 <= k < |before| ==> IsOf(before[k], parent, ids)
    requires id !in ids && NoRepeats(pair) && forall k :: 0 <= k < |pair| ==> IsOf(pair[k], parent, [id])
    ensures NoRepeats(before + pair)
    ensures forall k :: 0 <= k < |before + pair| ==> IsOf((before + pair)[k], parent, ids + [id])
  {
  }

  lemma {:induction false} PairsOnce(parent: Place, caption: Caption, items: seq<Id>, below: Caption)
    requires Distinct(items) && Part(caption) == Part(below)
    ensures var shown := PairPlaces(parent, caption, items, below);
            && Once(shown, Part(caption), Part(caption))
            && forall k :: 0 <= k < |shown| ==> IsOf(shown[k], parent, items)
  {
    if items != [] {
      var n := |items| - 1;
      var place := Item(parent, caption, items[n]);
      PairsOnce(parent, caption, items[..n], below);
      assert items == items[..n] + [items[n]];
      PairAfter(PairPlaces(parent, caption, items[..n], below), [place, Under(place, below)], parent, items[..n],
                items[n]);
    }
  }

  lemma {:induction false} AccountsOnce(parent: Place, accounts: seq<Id>, current: Id)
    requires Distinct(accounts)
    ensures var shown := AccountPlaces(parent, accounts, current);
            && Once(shown, 5, 5)
            && forall k :: 0 <= k < |shown| ==> IsOf(shown[k], parent, accounts)
  {
    if accounts != [] {
      var n := |accounts| - 1;
      AccountsOnce(parent, accounts[..n], current);
      assert accounts == accounts[..n] + [accounts[n]];
      var pair := AccountPair(parent, accounts[n], current);
      PairAfter(AccountPlaces(parent, accounts[..n], current), pair, parent, accounts[..n], accounts[n]);
      assert AccountPlaces(parent, accounts, current) == AccountPlaces(parent, accounts[..n], current) + pair;
    }
  }

  lemma AccountPair(parent: Place, account: Id, current: Id) returns (pair: seq<Place>)
    ensures var place := Item(parent, OneAccount, account);
            pair == [place] + if current == account then [Under(place, External)] else []
    ensures Once(pair, 5, 5) && forall k :: 0 <= k < |pair| ==> IsOf(pair[k], parent, [account])
  {
    var place := Item(parent, OneAccount, account);
    pair := [place] + if current == account then [Under(place, External)] else [];
    assert account in [account];
  }

  lemma FolderOnce(before: seq<Place>, folder: Place, items: seq<Place>, from: nat, part: nat)
    requires from < part == Part(folder.caption) && Once(before, from, part - 1) && Once(items, part + 1, part + 1)
    ensures Once(before + [folder] + items, from, part + 1)
  {
    AppendOnce(before, [folder], from, part - 1, part);
    AppendOnce(before + [folder], items, from, part, part + 1);
  }

  lemma FoldersOnce(a: Place, inA: seq<Place>, b: Place, inB: seq<Place>, c: Place, inC: seq<Place>)
    requires a.caption == Accounts && b.caption == Aliases && c.caption == Lists
    requires Once(inA, 5, 5) && Once(inB, 7, 7) && Once(inC, 9, 9)
    ensures Once([a] + inA + [b] + inB + [c] + inC, 4, 9)
  {
    AppendOnce([a], inA, 4, 4, 5);
    FolderOnce([a] + inA, b, inB, 4, 6);
    FolderOnce([a] + inA + [b] + inB, c, inC, 4, 8);
  }

  lemma PartsOnce(i: Input, d: Domain, place: Place)
    requires DistinctDomain(d)
    ensures Once(AccountPlaces(Under(place, Accounts), d.accounts, i.currentAccount), 5, 5)
    ensures Once(ItemPlaces(Under(place, Aliases), OneAlias, d.aliases), 7, 7)
    ensures Once(PairPlaces(Under(place, Lists), OneList, d.lists, Members), 9, 9)
  {
    AccountsOnce(Under(place, Accounts), d.accounts, i.currentAccount);
    ItemsOnce(Under(place, Aliases), OneAlias, d.aliases);
    PairsOnce(Under(place, Lists), OneList, d.lists, Members);
  }

  lemma ContentOnce(i: Input, d: Domain, place: Place)
    requires DistinctDomain(d)
    ensures Once(ContentPlaces(i, d, place), 4, 9)
  {
    var accounts, aliases, lists := Under(place, Accounts), Under(place, Aliases), Under(place, Lists);
    PartsOnce(i, d, place);
    FoldersOnce(accounts, AccountPlaces(accounts, d.accounts, i.currentAccount),
                aliases, ItemPlaces(aliases, OneAlias, d.aliases), lists, PairPlaces(lists, OneList, d.lists, Members));
  }

  /** The domain a place belongs to, if any. */
  function Owner(p: Place): seq<Id> {
    match p
    case Top(_) => []
    case Under(q, _) => Owner(q)
    case Item(q, caption, id) => if caption == OneDomain then [id] else Owner(q)
  }

  predicate OwnedBy(shown: seq<Place>, owner: seq<Id>) {
    forall k :: 0 <= k < |shown| ==> Owner(shown[k]) == owner
  }

  lemma {:induction false} ItemsOwned(parent: Place, caption: Caption, items: seq<Id>)
    requires caption != OneDomain
    ensures OwnedBy(ItemPlaces(parent, caption, items), Owner(parent))
  {
    if items != [] { ItemsOwned(parent, caption, items[..|items| - 1]); }
  }

  lemma {:induction false} PairsOwned(parent: Place, caption: Caption, items: seq<Id>, below: Caption)
    requires caption != OneDomain
    ensures OwnedBy(PairPlaces(parent, caption, items, below), Owner(parent))
  {
    if items != [] { PairsOwned(parent, caption, items[..|items| - 1], below); }
  }

  lemma {:induction false} AccountsOwned(parent: Place, accounts: seq<Id>, current: Id)
    ensures OwnedBy(AccountPlaces(parent, accounts, current), Owner(parent))
  {
    if accounts != [] { AccountsOwned(parent, accounts[..|accounts| - 1], current); }
  }

  lemma ContentOwned(i: Input, d: Domain, place: Place)
    ensures OwnedBy(ContentPlaces(i, d, place), Owner(place))
  {
    var accounts, aliases, lists := Under(place, Accounts), Under(place, Aliases), Under(place, Lists);
    AccountsOwned(accounts, d.accounts, i.currentAccount);
    ItemsOwned(aliases, OneAlias, d.aliases);
    PairsOwned(lists, OneList, d.lists, Members);
    assert OwnedBy([accounts], Owner(place)) && OwnedBy([aliases], Owner(place)) && OwnedBy([lists], Owner(place));
  }

  lemma DomainOnce(i: Input, d: Domain)
    requires DistinctDomain(d)
    ensures Once(DomainPlaces(i, d), 3, 9) && OwnedBy(DomainPlaces(i, d), [d.id])
  {
    var place := Item(DOMAINS, OneDomain, d.id);
    assert Owner(place) == [d.id];
    if IsExpanded(i, d) {
      ContentOnce(i, d, place);
      ContentOwned(i, d, place);
      AppendOnce([place], ContentPlaces(i, d, place), 3, 3, 9);
    }
  }

  lemma {:induction false} DomainsOnce(i: Input, ds: seq<Domain>)
    requires DistinctIds(ds) && forall k :: 0 <= k < |ds| ==> DistinctDomain(ds[k])
    ensures Once(DomainsPlaces(i, ds), 3, 9)
    ensures forall k :: 0 <= k < |DomainsPlaces(i, ds)| ==>
              exists n :: 0 <= n < |ds| && Owner(DomainsPlaces(i, ds)[k]) == [ds[n].id]
  {
    if ds != [] {
      var n := |ds| - 1;
      var before, last := DomainsPlaces(i, ds[..n]), DomainPlaces(i, ds[n]);
      DomainsOnce(i, ds[..n]);
      DomainOnce(i, ds[n]);
      forall j, k | 0 <= j < |before| && 0 <= k < |last| ensures before[j] != last[k] {
        var m :| 0 <= m < n && Owner(before[j]) == [ds[..n][m].id];
        assert ds[m].id != ds[n].id;
        assert [ds[m].id][0] != [ds[n].id][0];
      }
      forall k | 0 <= k < |before + last|
        ensures exists m :: 0 <= m < |ds| && Owner((before + last)[k]) == [ds[m].id]
      {
        if k < |before| {
          var m :| 0 <= m < n && Owner(before[k]) == [ds[..n][m].id];
          assert Owner((before + last)[k]) == [ds[m].id];
        } else {
          assert Owner((before + last)[k]) == [ds[n].id];
        }
      }
    }
  }

  lemma BeforeRoutesOnce()
    ensures Once(BEFORE_ROUTES, 10, 10)
  {
    forall j, k | 0 <= j < k < |BEFORE_ROUTES| ensures BEFORE_ROUTES[j] != BEFORE_ROUTES[k] {
      assert BEFORE_ROUTES[j].caption != BEFORE_ROUTES[k].caption;
    }
  }

  lemma AfterRoutesOnce()
    ensures Once(AFTER_ROUTES, 12, 12)
  {
  }

  lemma AfterRelaysOnce()
    ensures Once(AFTER_RELAYS, 16, 16)
  {
  }

  lemma AdvancedOnce(i: Input)
    requires DistinctInput(i)
    ensures Once(AdvancedPlaces(i), 13, 16)
  {
    var ranges, relays := ItemPlaces(IP_RANGES, OneRange, i.ranges), ItemPlaces(RELAYS, OneRelay, i.relays);
    ItemsOnce(IP_RANGES, OneRange, i.ranges);
    ItemsOnce(RELAYS, OneRelay, i.relays);
    AfterRelaysOnce();
    AppendOnce(ranges, [RELAYS], 13, 13, 14);
    AppendOnce(ranges + [RELAYS], relays, 13, 14, 15);
    AppendOnce(ranges + [RELAYS] + relays, AFTER_RELAYS, 13, 15, 16);
  }

  lemma SettingsOnce(i: Input)
    requires DistinctInput(i)
    ensures Once(SettingsPlaces(i), 10, 16)
  {
    var routes := PairPlaces(ROUTES, OneRoute, i.routes, Addresses);
    BeforeRoutesOnce();
    AfterRoutesOnce();
    PairsOnce(ROUTES, OneRoute, i.routes, Addresses);
    AdvancedOnce(i);
    AppendOnce(BEFORE_ROUTES, routes, 10, 10, 11);
    AppendOnce(BEFORE_ROUTES + routes, AFTER_ROUTES, 10, 11, 12);
    AppendOnce(BEFORE_ROUTES + routes + AFTER_ROUTES, AdvancedPlaces(i), 10, 12, 16);
  }

  lemma ServerOnce(i: Input)
    requires DistinctInput(i)
    ensures Once(ServerPlaces(i), 1, 16)
  {
    var first := [Under(WELCOME, Status), DOMAINS];
    DomainsOnce(i, i.domains);
    SettingsOnce(i);
    AppendOnce(first, DomainsPlaces(i, i.domains), 1, 2, 9);
    AppendOnce(first + DomainsPlaces(i, i.domains), SettingsPlaces(i), 1, 9, 16);
  }

  lemma LevelOnce(i: Input)
    requires DistinctInput(i)
    ensures Once(LevelPlaces(i), 1, 16)
  {
    if i.level == ADMIN_DOMAIN {
      DomainOnce(i, i.userDomain);
      AppendOnce([DOMAINS], DomainPlaces(i, i.userDomain), 2, 2, 9);
    } else if i.level == ADMIN_SERVER {
      ServerOnce(i);
    }
  }

  /** With distinct ids nothing is shown twice, whatever the level. */
  lemma MenuShowsOnce(i: Input)
    requires DistinctInput(i)
    ensures NoRepeats(MenuPlaces(i))
  {
    LevelOnce(i);
    AppendOnce([WELCOME], LevelPlaces(i), 0, 0, 16);
    AppendOnce([WELCOME] + LevelPlaces(i), [Top(Logout)], 0, 16, 17);
  }

  /** Where ids are distinct, the description of the menu leaves no choice of ids or parents. */
  lemma MenuIsDetermined(i: Input, a: seq<Node>, b: seq<Node>)
    requires DistinctInput(i) && Renders(a, MenuPlaces(i)) && Renders(b, MenuPlaces(i))
    ensures a == b
  {
    var shown := MenuPlaces(i);
    MenuShowsOnce(i);
    forall k | 0 <= k < |a| ensures a[k] == b[k] {
      assert IsPlaced(shown, k, a[k].parent) && IsPlaced(shown, k, b[k].parent);
    }
  }

  // --- what is shown, independent of the loops ------------------------------------------------------

  predicate IsItem(p: Place, parent: Place, caption: Caption, items: seq<Id>) {
    p.Item? && p.parent == parent && p.caption == caption && p.id in items
  }

  /** An item of the list, or the node below one. */
  predicate IsPair(p: Place, parent: Place, caption: Caption, items: seq<Id>, below: Caption) {
    IsItem(p, parent, caption, items) || (p.Under? && p.caption == below && IsItem(p.parent, parent, caption, items))
  }

  /** The domain's own node, and, if it is open, its three folders and what is in them. */
  predicate IsOfDomain(i: Input, d: Domain, open: bool, p: Place) {
    var root := Item(DOMAINS, OneDomain, d.id);
    var accounts := Under(root, Accounts);
    p == root ||
    (open &&
     (|| (p.Under? && p.parent == root && p.caption in {Accounts, Aliases, Lists})
      || IsItem(p, accounts, OneAccount, d.accounts)
      || (p == Under(Item(accounts, OneAccount, i.currentAccount), External) && i.currentAccount in d.accounts)
      || IsItem(p, Under(root, Aliases), OneAlias, d.aliases)
      || IsPair(p, Under(root, Lists), OneList, d.lists, Members)))
  }

  predicate IsFixedSetting(p: Place) {
    p.Under? &&
    (|| (p.parent == WELCOME && p.caption in {Rules, Settings, Utilities})
     || (p.parent == SETTINGS && p.caption in {Protocols, AntiSpam, AntiVirus, Logging, Advanced})
     || (p.parent == PROTOCOLS && p.caption in {Smtp, Pop3, Imap})
     || (p.parent == SMTP && p.caption == Routes)
     || (p.parent == ANTI_SPAM && p.caption in {DnsBlacklists, SurblServers, Greylisting, WhiteListing})
     || (p.parent == ADVANCED && p.caption in {SslCertificates, AutoBan, IpRanges, IncomingRelays, Mirror, Performance,
                                               ServerMessages, SslTls, Scripts, TcpIpPorts})
     || (p.parent == UTILITIES && p.caption in {Backup, Diagnostics}))
  }

  predicate IsSetting(i: Input, p: Place) {
    || IsFixedSetting(p)
    || IsPair(p, ROUTES, OneRoute, i.routes, Addresses)
    || IsItem(p, IP_RANGES, OneRange, i.ranges)
    || IsItem(p, RELAYS, OneRelay, i.relays)
  }

  /**
    A user sees his account; a domain administrator his domain with all its contents, whatever is selected; a server
    administrator every domain, the contents of the selected one, and the settings.
    */
  predicate IsShown(i: Input, p: Place) {
    || p == WELCOME || p == Top(Logout)
    || (i.level == ADMIN_USER && p == Item(WELCOME, OneAccount, i.userAccount))
    || (i.level == ADMIN_USER && p == Under(Item(WELCOME, OneAccount, i.userAccount), External))
    || (i.level == ADMIN_DOMAIN && (p == DOMAINS || IsOfDomain(i, i.userDomain, true, p)))
    || (i.level == ADMIN_SERVER &&
        (|| p == Under(WELCOME, Status) || p == DOMAINS || IsSetting(i, p)
         || exists k :: 0 <= k < |i.domains| && IsOfDomain(i, i.domains[k], i.domains[k].id == i.currentDomain, p)))
  }

  lemma {:induction false} ItemsHold(parent: Place, caption: Caption, items: seq<Id>, p: Place)
    ensures p in ItemPlaces(parent, caption, items) <==> IsItem(p, parent, caption, items)
  {
    if items != [] {
      var n := |items| - 1;
      ItemsHold(parent, caption, items[..n], p);
      assert items == items[..n] + [items[n]];
    }
  }

  lemma {:induction false} PairsHold(parent: Place, caption: Caption, items: seq<Id>, below: Caption, p: Place)
    ensures p in PairPlaces(parent, caption, items, below) <==> IsPair(p, parent, caption, items, below)
  {
    if items != [] {
      var n := |items| - 1;
      PairsHold(parent, caption, items[..n], below, p);
      assert items == items[..n] + [items[n]];
    }
  }

  lemma {:induction false} AccountsHold(parent: Place, accounts: seq<Id>, current: Id, p: Place)
    ensures p in AccountPlaces(parent, accounts, current) <==>
            || IsItem(p, parent, OneAccount, accounts)
            || (p == Under(Item(parent, OneAccount, current), External) && current in accounts)
  {
    if accounts != [] {
      var n := |accounts| - 1;
      AccountsHold(parent, accounts[..n], current, p);
      assert accounts == accounts[..n] + [accounts[n]];
    }
  }

  lemma DomainHolds(i: Input, d: Domain, p: Place)
    ensures p in DomainPlaces(i, d) <==> IsOfDomain(i, d, i.level != ADMIN_SERVER || d.id == i.currentDomain, p)
  {
    var root := Item(DOMAINS, OneDomain, d.id);
    AccountsHold(Under(root, Accounts), d.accounts, i.currentAccount, p);
    ItemsHold(Under(root, Aliases), OneAlias, d.aliases, p);
    PairsHold(Under(root, Lists), OneList, d.lists, Members, p);
  }

  lemma {:induction false} DomainsHold(i: Input, ds: seq<Domain>, p: Place)
    requires i.level == ADMIN_SERVER
    ensures p in DomainsPlaces(i, ds) <==>
            exists k :: 0 <= k < |ds| && IsOfDomain(i, ds[k], ds[k].id == i.currentDomain, p)
  {
    if ds != [] {
      var n := |ds| - 1;
      DomainsHold(i, ds[..n], p);
      DomainHolds(i, ds[n], p);
      if k :| 0 <= k < n && IsOfDomain(i, ds[..n][k], ds[..n][k].id == i.currentDomain, p) {
        assert IsOfDomain(i, ds[k], ds[k].id == i.currentDomain, p);
      }
      if k :| 0 <= k < n && IsOfDomain(i, ds[k], ds[k].id == i.currentDomain, p) {
        assert IsOfDomain(i, ds[..n][k], ds[..n][k].id == i.currentDomain, p);
      }
    }
  }

  lemma FixedHold(p: Place)
    ensures IsFixedSetting(p) <==> p in BEFORE_ROUTES || p in AFTER_ROUTES || p == RELAYS || p in AFTER_RELAYS
  {
  }

  lemma SettingsHold(i: Input, p: Place)
    ensures p in SettingsPlaces(i) <==> IsSetting(i, p)
  {
    FixedHold(p);
    PairsHold(ROUTES, OneRoute, i.routes, Addresses, p);
    ItemsHold(IP_RANGES, OneRange, i.ranges, p);
    ItemsHold(RELAYS, OneRelay, i.relays, p);
  }

  /** Exactly what is to be shown is shown, at every level. */
  lemma MenuHolds(i: Input, p: Place)
    ensures p in MenuPlaces(i) <==> IsShown(i, p)
  {
    if i.level == ADMIN_DOMAIN {
      DomainHolds(i, i.userDomain, p);
    } else if i.level == ADMIN_SERVER {
      DomainsHold(i, i.domains, p);
      SettingsHold(i, p);
    }
  }

  /** A domain administrator sees his whole domain whatever is selected, and a user four nodes. */
  lemma OtherMenuSizes(i: Input)
    ensures i.level == ADMIN_DOMAIN ==> |MenuPlaces(i)| == 4 + ContentSize(i, i.userDomain)
    ensures i.level == ADMIN_USER ==> |MenuPlaces(i)| == 4
  {
    DomainBelow(i, i.userDomain);
  }

  // --- in which order -------------------------------------------------------------------------------

  lemma {:induction false} ItemsInOrder(parent: Place, caption: Caption, items: seq<Id>, k: nat)
    requires k < |items|
    ensures |ItemPlaces(parent, caption, items)| == |items|
    ensures ItemPlaces(parent, caption, items)[k] == Item(parent, caption, items[k])
  {
    var n := |items| - 1;
    if n > 0 {
      ItemsInOrder(parent, caption, items[..n], if k < n then k else 0);
    }
  }

  lemma {:induction false} PairsInOrder(parent: Place, caption: Caption, items: seq<Id>, below: Caption, k: nat)
    requires k < |items|
    ensures |PairPlaces(parent, caption, items, below)| == 2 * |items|
    ensures var place := Item(parent, caption, items[k]);
            PairPlaces(parent, caption, items, below)[2 * k..2 * k + 2] == [place, Under(place, below)]
  {
    var n := |items| - 1;
    if n > 0 {
      PairsInOrder(parent, caption, items[..n], below, if k < n then k else 0);
    }
    assert |PairPlaces(parent, caption, items[..n], below)| == 2 * n;
  }

  lemma {:induction false} CountLength(parent: Place, accounts: seq<Id>, current: Id)
    ensures |AccountPlaces(parent, accounts, current)| == |accounts| + Count(accounts, current)
  {
    if accounts != [] { CountLength(parent, accounts[..|accounts| - 1], current); }
  }

  /** The accounts come in the order of the domain; the extra node of a selected one comes right after it. */
  lemma {:induction false} AccountsInOrder(parent: Place, accounts: seq<Id>, current: Id, k: nat)
    requires k < |accounts|
    ensures |AccountPlaces(parent, accounts, current)| == |accounts| + Count(accounts, current)
    ensures var at, place := k + Count(accounts[..k], current), Item(parent, OneAccount, accounts[k]);
            && at < |AccountPlaces(parent, accounts, current)|
            && AccountPlaces(parent, accounts, current)[at] == place
            && (accounts[k] == current ==>
                  at + 1 < |AccountPlaces(parent, accounts, current)|
                  && AccountPlaces(parent, accounts, current)[at + 1] == Under(place, External))
    decreases |accounts|
  {
    var n := |accounts| - 1;
    CountLength(parent, accounts, current);
    CountLength(parent, accounts[..n], current);
    if k < n {
      AccountsInOrder(parent, accounts[..n], current, k);
      assert accounts[..n][..k] == accounts[..k];
    }
  }

  lemma ThreeParts(x: seq<Place>, y: seq<Place>, z: seq<Place>)
    ensures var s := x + y + z;
            s[..|x|] == x && s[|x|..|x| + |y|] == y && s[|x| + |y|..] == z
  {
  }

  /** The folders of a domain come in the order accounts, aliases and lists, each before what is in it. */
  lemma FoldersInOrder(i: Input, d: Domain)
    ensures var place := Item(DOMAINS, OneDomain, d.id);
            var content := ContentPlaces(i, d, place);
            var aliases := 1 + |d.accounts| + Count(d.accounts, i.currentAccount);
            var lists := aliases + 1 + |d.aliases|;
            && |content| == lists + 1 + 2 * |d.lists|
            && content[..aliases]
               == [Under(place, Accounts)] + AccountPlaces(Under(place, Accounts), d.accounts, i.currentAccount)
            && content[aliases..lists]
               == [Under(place, Aliases)] + ItemPlaces(Under(place, Aliases), OneAlias, d.aliases)
            && content[lists..] == [Under(place, Lists)] + PairPlaces(Under(place, Lists), OneList, d.lists, Members)
  {
    var place := Item(DOMAINS, OneDomain, d.id);
    assert TopOf(DOMAINS) == WELCOME;
    AccountsBelow(Under(place, Accounts), d.accounts, i.currentAccount);
    ItemsBelow(Under(place, Aliases), OneAlias, d.aliases);
    PairsBelow(Under(place, Lists), OneList, d.lists, Members);
    var x := [Under(place, Accounts)] + AccountPlaces(Under(place, Accounts), d.accounts, i.currentAccount);
    var y := [Under(place, Aliases)] + ItemPlaces(Under(place, Aliases), OneAlias, d.aliases);
    var z := [Under(place, Lists)] + PairPlaces(Under(place, Lists), OneList, d.lists, Members);
    assert ContentPlaces(i, d, place) == x + y + z;
    ThreeParts(x, y, z);
  }

  /** The domains come in the order of the server, each followed by its contents if it is the selected one. */
  lemma {:induction false} DomainsInOrder(i: Input, ds: seq<Domain>, k: nat)
    requires k < |ds|
    ensures var from, to := |DomainsPlaces(i, ds[..k])|, |DomainsPlaces(i, ds[..k + 1])|;
            from < to <= |DomainsPlaces(i, ds)| && DomainsPlaces(i, ds)[from..to] == DomainPlaces(i, ds[k])
    decreases |ds|
  {
    var n := |ds| - 1;
    assert ds[..k + 1][..k] == ds[..k];
    if k < n {
      DomainsInOrder(i, ds[..n], k);
      assert ds[..n][..k] == ds[..k] && ds[..n][..k + 1] == ds[..k + 1];
    } else {
      assert ds[..k + 1] == ds;
    }
  }
}
