/** Mapping a user's external groups to a role and its scopes. */
module Roles {
  import opened Text
  import opened Ordering
  import opened Decimal

  // ---- The group mapping in the environment: "admin=a,b;user=c" ----

  datatype Parsed =
    | Groups(roles: map<string, seq<string>>)
    | InvalidEntry(item: string)
    | MissingRole(item: string)

  /** `strings.SplitN(item, "=", 2)` when there is an "=": both sides of the
      first one. */
  function CutAt(item: string): (string, string)
    requires '=' in item
  {
    if item[0] == '=' then ("", item[1..])
    else
      var (a, b) := CutAt(item[1..]);
      ([item[0]] + a, b)
  }

  function TrimAll(xs: seq<string>): seq<string> {
    seq(|xs|, i requires 0 <= i < |xs| => TrimSpace(xs[i]))
  }

  function AddEntry(roles: map<string, seq<string>>, raw: string): Parsed {
    var item := TrimSpace(raw);
    if item == "" then Groups(roles)
    else if '=' !in item then InvalidEntry(item)
    else
      var (left, right) := CutAt(item);
      var role := TrimSpace(left);
      if role == "" then MissingRole(item)
      else Groups(roles[role := Distinct(TrimAll(Split(right, ',')))])
  }

  /** One entry: blank ones are skipped; one without "=" or without a role before
      its first "=" is refused; any other sets the groups of its role to the
      distinct trimmed values between its commas. */
  lemma EntryMeaning(roles: map<string, seq<string>>, raw: string)
    ensures var item := TrimSpace(raw);
            if item == "" then AddEntry(roles, raw) == Groups(roles)
            else if '=' !in item then AddEntry(roles, raw) == InvalidEntry(item)
            else exists left, right | item == left + "=" + right ::
                   && '=' !in left
                   && AddEntry(roles, raw) == if TrimSpace(left) == "" then MissingRole(item)
                                              else Groups(roles[TrimSpace(left) := Distinct(Split(right, ','))])
  {
    hide TrimSpace, Split, Distinct;
    var item := TrimSpace(raw);
    if '=' in item {
      CutSplits(item);
      var (left, right) := CutAt(item);
      DistinctOfTrimmed(Split(right, ','));
      assert item == left + "=" + right;
    }
  }

  lemma {:induction false} CutSplits(item: string)
    requires '=' in item
    ensures var (left, right) := CutAt(item); item == left + "=" + right && '=' !in left
  {
    if item[0] != '=' {
      CutSplits(item[1..]);
      assert item == [item[0]] + item[1..];
    }
  }

  lemma {:induction false} DistinctOfTrimmed(xs: seq<string>)
    ensures Distinct(TrimAll(xs)) == Distinct(xs)
  {
    hide Trimmed, TrimSpace;
    if xs != [] {
      var n := |xs| - 1;
      DistinctOfTrimmed(xs[..n]);
      TrimmedStays(TrimSpace(xs[n]));
      assert TrimAll(xs)[..n] == TrimAll(xs[..n]);
    }
  }

  /** The entries in order; the first bad one decides, a repeated role is
      overwritten. */
  function ParseItems(items: seq<string>): Parsed {
    if items == [] then Groups(map[])
    else
      var n := |items| - 1;
      match ParseItems(items[..n])
      case Groups(roles) => AddEntry(roles, items[n])
      case bad => bad
  }

  method ParseRoleGroups(value: string) returns (r: Parsed)
    ensures r == if TrimSpace(value) == "" then Groups(map[]) else ParseItems(Split(value, ';'))
  {
    hide TrimSpace, AddEntry;
    var result: map<string, seq<string>> := map[];
    if TrimSpace(value) == "" { return Groups(result); }
    var items := Split(value, ';');
    for i := 0 to |items|
      invariant ParseItems(items[..i]) == Groups(result)
    {
      assert items[..i + 1][..i] == items[..i];
      var entry := EntryGroups(result, items[i]);
      if !entry.Groups? {
        BadItemDecides(items, i + 1);
        return entry;
      }
      result := entry.roles;
    }
    assert items[..|items|] == items;
    return Groups(result);
  }

  method EntryGroups(roles: map<string, seq<string>>, raw: string) returns (r: Parsed)
    ensures r == AddEntry(roles, raw)
  {
    hide TrimSpace, Distinct;
    var item := TrimSpace(raw);
    if item == "" { return Groups(roles); }
    if '=' !in item { return InvalidEntry(item); }
    var (left, right) := CutAt(item);
    var role := TrimSpace(left);
    if role == "" { return MissingRole(item); }
    var groups := Split(right, ',');
    ghost var raws := groups;
    for i := 0 to |groups|
      invariant |groups| == |raws|
      invariant forall j | 0 <= j < |groups| :: groups[j] == if j < i then TrimSpace(raws[j]) else raws[j]
    {
      groups := groups[i := TrimSpace(groups[i])];
    }
    assert groups == TrimAll(raws);
    groups := Dedupe(groups);
    return Groups(roles[role := groups]);
  }

  lemma {:induction false} BadItemDecides(items: seq<string>, k: nat)
    requires k <= |items| && !ParseItems(items[..k]).Groups?
    ensures ParseItems(items) == ParseItems(items[..k])
    decreases |items| - k
  {
    hide AddEntry;
    if k == |items| {
      assert items[..k] == items;
    } else {
      assert items[..k + 1][..k] == items[..k];
      BadItemDecides(items, k + 1);
    }
  }

  datatype Entry = Entry(role: string, groups: seq<string>)

  /** An entry that can be written down and read back. */
  predicate Writable(e: Entry) {
    && e.role != "" && Trimmed(e.role) && ';' !in e.role && '=' !in e.role
    && (forall i | 0 <= i < |e.groups| ::
          e.groups[i] != "" && Trimmed(e.groups[i]) && ';' !in e.groups[i] && ',' !in e.groups[i])
    && (forall i, j | 0 <= i < j < |e.groups| :: e.groups[i] != e.groups[j])
  }

  function Format(e: Entry): string {
    e.role + "=" + Join(e.groups, ',')
  }

  function FormatAll(es: seq<Entry>): seq<string> {
    seq(|es|, i requires 0 <= i < |es| => Format(es[i]))
  }

  function AsMap(es: seq<Entry>): map<string, seq<string>> {
    if es == [] then map[] else AsMap(es[..|es| - 1])[es[|es| - 1].role := es[|es| - 1].groups]
  }

  lemma {:induction false} CutAfter(a: string, b: string)
    requires '=' !in a
    ensures CutAt(a + "=" + b) == (a, b)
  {
    var s := a + "=" + b;
    assert s[|a|] == '=';
    if a == "" {
      assert s[1..] == b;
    } else {
      assert s[1..] == a[1..] + "=" + b;
      CutAfter(a[1..], b);
      assert [a[0]] + a[1..] == a;
    }
  }

  lemma {:induction false} JoinEnds(xs: seq<string>)
    requires xs != [] && forall i | 0 <= i < |xs| :: xs[i] != "" && Trimmed(xs[i]) && ';' !in xs[i]
    ensures var j := Join(xs, ','); j != "" && !IsSpace(j[|j| - 1]) && ';' !in j
  {
    hide IsSpace;
    if |xs| > 1 { JoinEnds(xs[1..]); }
  }

  lemma {:induction false} DistinctOfDistinct(xs: seq<string>)
    requires forall i | 0 <= i < |xs| :: xs[i] != "" && Trimmed(xs[i])
    requires forall i, j | 0 <= i < j < |xs| :: xs[i] != xs[j]
    ensures Distinct(TrimAll(xs)) == xs
  {
    hide Trimmed, TrimSpace;
    if xs != [] {
      var n := |xs| - 1;
      DistinctOfDistinct(xs[..n]);
      TrimmedStays(xs[n]);
      assert TrimAll(xs)[..n] == TrimAll(xs[..n]);
    }
  }

  lemma FormatParses(roles: map<string, seq<string>>, e: Entry)
    requires Writable(e)
    ensures AddEntry(roles, Format(e)) == Groups(roles[e.role := e.groups])
    ensures ';' !in Format(e)
  {
    hide Distinct, Split, TrimSpace, TrimAll, Join, IsSpace;
    var s := Format(e);
    FormatEnds(e);
    TrimmedStays(s);
    TrimmedStays(e.role);
    CutAfter(e.role, Join(e.groups, ','));
    assert s[|e.role|] == '=';
    GroupsReadBack(e.groups);
  }

  lemma FormatEnds(e: Entry)
    requires Writable(e)
    ensures Trimmed(Format(e)) && ';' !in Format(e)
  {
    hide IsSpace;
    assert !IsSpace('=') by { EqualsIsNoSpace(); }
    var s, j := Format(e), Join(e.groups, ',');
    assert s[0] == e.role[0];
    if e.groups != [] {
      JoinEnds(e.groups);
      assert s[|s| - 1] == j[|j| - 1];
    }
  }

  lemma EqualsIsNoSpace()
    ensures !IsSpace('=')
  {
  }

  lemma GroupsReadBack(groups: seq<string>)
    requires forall i | 0 <= i < |groups| :: groups[i] != "" && Trimmed(groups[i]) && ',' !in groups[i]
    requires forall i, j | 0 <= i < j < |groups| :: groups[i] != groups[j]
    ensures Distinct(TrimAll(Split(Join(groups, ','), ','))) == groups
  {
    if groups == [] {
      assert TrimAll([""]) == [""];
      assert Distinct([""]) == Distinct([]);
    } else {
      hide Distinct, Split, Join, Trimmed;
      SplitOfJoin(groups, ',');
      DistinctOfDistinct(groups);
    }
  }

  /** Reading back what was written gives the mapping, later entries for a role
      replacing earlier ones. */
  lemma ParseFormat(es: seq<Entry>)
    requires forall i | 0 <= i < |es| :: Writable(es[i])
    ensures ParseItems(Split(Join(FormatAll(es), ';'), ';')) == Groups(AsMap(es))
  {
    if es == [] {
      assert [""][..0] == [];
      assert ParseItems([""]) == AddEntry(map[], "");
    } else {
      hide Writable, Format, AddEntry, Split, Join;
      forall i | 0 <= i < |es| ensures ';' !in FormatAll(es)[i] { FormatParses(map[], es[i]); }
      SplitOfJoin(FormatAll(es), ';');
      ParseEach(es);
    }
  }

  lemma {:induction false} ParseEach(es: seq<Entry>)
    requires forall i | 0 <= i < |es| :: Writable(es[i])
    ensures ParseItems(FormatAll(es)) == Groups(AsMap(es))
  {
    hide Writable, Format, AddEntry;
    if es != [] {
      var n := |es| - 1;
      ParseEach(es[..n]);
      assert FormatAll(es)[..n] == FormatAll(es[..n]);
      FormatParses(AsMap(es[..n]), es[n]);
    }
  }

  // ---- Loading the roles and indexing the groups ----

  datatype RoleEntry = RoleEntry(name: string, scopes: seq<string>)

  datatype RoleStore = RoleStore(defaultRole: string, roleScopes: map<string, seq<string>>, groupIndex: map<string, string>)

  datatype LoadResult =
    | Loaded(store: RoleStore)
    | NoRoles | NoDefaultRole | NamelessEntry | RoleWithoutScopes(role: string)
    | UnknownDefaultRole(role: string) | UnknownMappedRole(role: string)

  predicate GoodEntry(e: RoleEntry) {
    TrimSpace(e.name) != "" && e.scopes != []
  }

  function ScopesOf(entries: seq<RoleEntry>): map<string, seq<string>> {
    if entries == [] then map[]
    else
      var e := entries[|entries| - 1];
      ScopesOf(entries[..|entries| - 1])[TrimSpace(e.name) := Distinct(e.scopes)]
  }

  ghost predicate Defines(entries: seq<RoleEntry>, role: string) {
    exists e | e in entries :: TrimSpace(e.name) == role
  }

  /** Entry `i` is the last one of that name. */
  ghost predicate LastNamed(entries: seq<RoleEntry>, i: nat, role: string) {
    && i < |entries| && TrimSpace(entries[i].name) == role
    && forall j | i < j < |entries| :: TrimSpace(entries[j].name) != role
  }

  /** A role is known exactly when some entry has its name, and its scopes are the
      distinct trimmed ones of the last such entry. */
  lemma {:induction false} ScopesMeaning(entries: seq<RoleEntry>, role: string)
    ensures role in ScopesOf(entries) <==> Defines(entries, role)
    ensures role in ScopesOf(entries) ==>
              exists i: nat :: LastNamed(entries, i, role) && ScopesOf(entries)[role] == Distinct(entries[i].scopes)
  {
    hide TrimSpace, Distinct;
    if entries != [] {
      var n := |entries| - 1;
      var init := entries[..n];
      ScopesMeaning(init, role);
      assert entries == init + [entries[n]];
      if TrimSpace(entries[n].name) == role {
        assert LastNamed(entries, n, role);
      } else if role in ScopesOf(init) {
        var i: nat :| LastNamed(init, i, role) && ScopesOf(init)[role] == Distinct(init[i].scopes);
        assert LastNamed(entries, i, role);
      }
    }
  }

  lemma LastNamedOnce(entries: seq<RoleEntry>, i: nat, k: nat, role: string)
    requires LastNamed(entries, i, role) && LastNamed(entries, k, role)
    ensures i == k
  {
    hide TrimSpace;
  }

  /** The index after assigning the groups of one role, later ones last. */
  function WithGroups(index: map<string, string>, role: string, groups: seq<string>): map<string, string> {
    if groups == [] then index
    else
      var rest := WithGroups(index, role, groups[..|groups| - 1]);
      var group := TrimSpace(groups[|groups| - 1]);
      if group == "" then rest else rest[group := role]
  }

  /** The index built when the mapping is visited in `order`. */
  function IndexFor(order: seq<string>, groupMap: map<string, seq<string>>): map<string, string>
    requires forall r | r in order :: r in groupMap
  {
    if order == [] then map[]
    else
      var role := order[|order| - 1];
      WithGroups(IndexFor(order[..|order| - 1], groupMap), role, groupMap[role])
  }

  /** `order` visits each role of the mapping once. */
  ghost predicate Visits(order: seq<string>, groupMap: map<string, seq<string>>) {
    && (forall r :: r in order <==> r in groupMap)
    && (forall i, j | 0 <= i < j < |order| :: order[i] != order[j])
  }

  ghost predicate Valid(defaultRole: string, entries: seq<RoleEntry>, groupMap: map<string, seq<string>>) {
    && entries != [] && TrimSpace(defaultRole) != ""
    && (forall e | e in entries :: TrimSpace(e.name) != "" && e.scopes != [])
    && Defines(entries, defaultRole)
    && (forall r | r in groupMap :: Defines(entries, r))
  }

  /** The roles of a loaded store: those defined, each with the scopes of its last
      entry. */
  ghost predicate RolesOf(roleScopes: map<string, seq<string>>, entries: seq<RoleEntry>) {
    && (forall role :: role in roleScopes <==> Defines(entries, role))
    && (forall i: nat, role | LastNamed(entries, i, role) && role in roleScopes :: roleScopes[role] == Distinct(entries[i].scopes))
  }

  lemma ScopesAreRoles(entries: seq<RoleEntry>)
    ensures RolesOf(ScopesOf(entries), entries)
  {
    hide TrimSpace, Distinct, ScopesOf, Defines;
    forall role { ScopesMeaning(entries, role); }
    forall i: nat, role | LastNamed(entries, i, role) && role in ScopesOf(entries)
      ensures ScopesOf(entries)[role] == Distinct(entries[i].scopes)
    {
      var k: nat :| LastNamed(entries, k, role) && ScopesOf(entries)[role] == Distinct(entries[k].scopes);
      LastNamedOnce(entries, i, k, role);
    }
  }

  method Load(defaultRole: string, entries: seq<RoleEntry>, groupMap: map<string, seq<string>>) returns (r: LoadResult)
    ensures r.Loaded? <==> Valid(defaultRole, entries, groupMap)
    ensures r.Loaded? ==>
              && r.store.defaultRole == defaultRole && RolesOf(r.store.roleScopes, entries)
              && exists order :: Visits(order, groupMap) && r.store.groupIndex == IndexFor(order, groupMap)
    ensures r.NoRoles? ==> entries == []
    ensures r.NoDefaultRole? ==> TrimSpace(defaultRole) == ""
    ensures r.NamelessEntry? ==> exists e | e in entries :: TrimSpace(e.name) == ""
    ensures r.RoleWithoutScopes? ==> exists e | e in entries :: TrimSpace(e.name) == r.role != "" && e.scopes == []
    ensures r.UnknownDefaultRole? ==> r.role == defaultRole && !Defines(entries, r.role)
    ensures r.UnknownMappedRole? ==> r.role in groupMap && !Defines(entries, r.role)
  {
    hide TrimSpace, Distinct, ScopesOf, IndexFor, Visits, Defines, LastNamed;
    ScopesAreRoles(entries);
    if entries == [] { return NoRoles; }
    if TrimSpace(defaultRole) == "" { return NoDefaultRole; }
    var bad, roleScopes := LoadScopes(entries);
    if bad.Some? { return bad.value; }
    if defaultRole !in roleScopes { return UnknownDefaultRole(defaultRole); }
    var unknown, groupIndex := LoadIndex(groupMap, roleScopes.Keys);
    if unknown.Some? { return UnknownMappedRole(unknown.value); }
    return Loaded(RoleStore(defaultRole, roleScopes, groupIndex));
  }

  method LoadScopes(entries: seq<RoleEntry>) returns (bad: Option<LoadResult>, roleScopes: map<string, seq<string>>)
    ensures bad.None? <==> forall e | e in entries :: GoodEntry(e)
    ensures bad.None? ==> roleScopes == ScopesOf(entries)
    ensures bad.Some? ==>
              || (bad.value == NamelessEntry && exists e | e in entries :: TrimSpace(e.name) == "")
              || (bad.value.RoleWithoutScopes? && exists e | e in entries :: TrimSpace(e.name) == bad.value.role != "" && e.scopes == [])
  {
    hide TrimSpace, Distinct;
    roleScopes := map[];
    for i := 0 to |entries|
      invariant forall j | 0 <= j < i :: GoodEntry(entries[j])
      invariant roleScopes == ScopesOf(entries[..i])
    {
      assert entries[..i + 1][..i] == entries[..i];
      var e := entries[i];
      assert e in entries;
      var name := TrimSpace(e.name);
      if name == "" { return Some(NamelessEntry), roleScopes; }
      if e.scopes == [] { return Some(RoleWithoutScopes(name)), roleScopes; }
      var scopes := Dedupe(e.scopes);
      roleScopes := roleScopes[name := scopes];
    }
    assert entries[..|entries|] == entries;
    bad := None;
  }

  /** Visits the mapping in any order. */
  method LoadIndex(groupMap: map<string, seq<string>>, known: set<string>) returns (unknown: Option<string>, groupIndex: map<string, string>)
    ensures unknown.None? <==> forall r | r in groupMap :: r in known
    ensures unknown.Some? ==> unknown.value in groupMap && unknown.value !in known
    ensures unknown.None? ==> exists order :: Visits(order, groupMap) && groupIndex == IndexFor(order, groupMap)
  {
    hide WithGroups;
    var todo := groupMap.Keys;
    groupIndex := map[];
    ghost var order: seq<string> := [];
    while todo != {}
      invariant todo <= groupMap.Keys
      invariant forall r :: r in order <==> r in groupMap.Keys - todo
      invariant forall i, j | 0 <= i < j < |order| :: order[i] != order[j]
      invariant forall r | r in order :: r in known
      invariant groupIndex == IndexFor(order, groupMap)
    {
      var role :| role in todo;
      if role !in known { return Some(role), groupIndex; }
      todo := todo - {role};
      assert role !in order;
      assert (order + [role])[..|order|] == order;
      order := order + [role];
      groupIndex := IndexGroups(groupIndex, role, groupMap[role]);
    }
    assert Visits(order, groupMap);
    unknown := None;
  }

  method IndexGroups(index: map<string, string>, role: string, groups: seq<string>) returns (out: map<string, string>)
    ensures out == WithGroups(index, role, groups)
  {
    hide TrimSpace;
    out := index;
    for i := 0 to |groups|
      invariant out == WithGroups(index, role, groups[..i])
    {
      assert groups[..i + 1][..i] == groups[..i];
      var group := TrimSpace(groups[i]);
      if group == "" { continue; }
      out := out[group := role];
    }
    assert groups[..|groups|] == groups;
  }

  /** `group` is one of the trimmed non-blank groups listed. */
  ghost predicate Lists(groups: seq<string>, group: string) {
    group != "" && Mentions(groups, group)
  }

  lemma {:induction false} WithGroupsAt(index: map<string, string>, role: string, groups: seq<string>, g: string)
    ensures var out := WithGroups(index, role, groups);
            && (g in out <==> g in index || Lists(groups, g))
            && (g in out ==> out[g] == if Lists(groups, g) then role else index[g])
  {
    if groups != [] {
      hide TrimSpace, Mentions;
      MentionsStep(groups, g);
      WithGroupsAt(index, role, groups[..|groups| - 1], g);
    } else {
      assert !Mentions([], g);
    }
  }

  ghost predicate ListedAt(order: seq<string>, groupMap: map<string, seq<string>>, g: string, k: nat) {
    k < |order| && order[k] in groupMap && Lists(groupMap[order[k]], g)
  }

  /** The last visited role that lists a group owns it. */
  ghost predicate LastLister(order: seq<string>, groupMap: map<string, seq<string>>, g: string, k: nat) {
    ListedAt(order, groupMap, g, k) && forall j | k < j < |order| :: !ListedAt(order, groupMap, g, j)
  }

  lemma {:induction false} IndexForAt(order: seq<string>, groupMap: map<string, seq<string>>, g: string)
    requires forall r | r in order :: r in groupMap
    ensures var index := IndexFor(order, groupMap);
            && ((exists k: nat :: ListedAt(order, groupMap, g, k)) ==> g in index)
            && (g in index ==> exists k: nat :: LastLister(order, groupMap, g, k) && index[g] == order[k])
  {
    if order != [] {
      hide Lists, WithGroups, Mentions, ListedAt, LastLister;
      var n := |order| - 1;
      var init := order[..n];
      IndexForAt(init, groupMap, g);
      WithGroupsAt(IndexFor(init, groupMap), order[n], groupMap[order[n]], g);
      ListersStep(order, groupMap, g);
      if !Lists(groupMap[order[n]], g) && g in IndexFor(init, groupMap) {
        var k: nat :| LastLister(init, groupMap, g, k) && IndexFor(init, groupMap)[g] == init[k];
        InOrder(init, groupMap, g, k);
      }
    } else {
      assert forall k: nat :: !ListedAt(order, groupMap, g, k);
    }
  }

  lemma InOrder(order: seq<string>, groupMap: map<string, seq<string>>, g: string, k: nat)
    requires LastLister(order, groupMap, g, k)
    ensures k < |order|
  {
  }

  /** Who lists a group once one more role is visited. */
  lemma ListersStep(order: seq<string>, groupMap: map<string, seq<string>>, g: string)
    requires order != [] && order[|order| - 1] in groupMap
    ensures var n := |order| - 1;
            && ((exists k: nat :: ListedAt(order, groupMap, g, k)) <==>
                  Lists(groupMap[order[n]], g) || exists k: nat :: ListedAt(order[..n], groupMap, g, k))
            && (Lists(groupMap[order[n]], g) ==> LastLister(order, groupMap, g, n))
            && (!Lists(groupMap[order[n]], g) ==>
                  forall k: nat | LastLister(order[..n], groupMap, g, k) :: LastLister(order, groupMap, g, k))
  {
    hide Lists;
    var n := |order| - 1;
    assert forall j: nat | j < n :: ListedAt(order, groupMap, g, j) <==> ListedAt(order[..n], groupMap, g, j);
    assert ListedAt(order, groupMap, g, n) <==> Lists(groupMap[order[n]], g);
    if k: nat :| ListedAt(order, groupMap, g, k) { assert k < n ==> ListedAt(order[..n], groupMap, g, k); }
    if k: nat :| ListedAt(order[..n], groupMap, g, k) { assert ListedAt(order, groupMap, g, k); }
  }

  /** No group is listed by two roles. */
  ghost predicate Disjoint(groupMap: map<string, seq<string>>) {
    forall r, q, g | r in groupMap && q in groupMap && r != q && Lists(groupMap[r], g) :: !Lists(groupMap[q], g)
  }

  ghost predicate OrderIrrelevant(groupMap: map<string, seq<string>>) {
    forall o, p | Visits(o, groupMap) && Visits(p, groupMap) :: IndexFor(o, groupMap) == IndexFor(p, groupMap)
  }

  /** The index does not depend on the map's iteration order exactly when no
      group is listed by two roles. */
  lemma IndexOrder(groupMap: map<string, seq<string>>)
    ensures OrderIrrelevant(groupMap) <==> Disjoint(groupMap)
  {
    hide Lists;
    if Disjoint(groupMap) {
      forall o, p | Visits(o, groupMap) && Visits(p, groupMap) ensures IndexFor(o, groupMap) == IndexFor(p, groupMap) {
        SameIndex(o, p, groupMap);
      }
    } else {
      OverlapMatters(groupMap);
    }
  }

  lemma OverlapMatters(groupMap: map<string, seq<string>>)
    requires !Disjoint(groupMap)
    ensures !OrderIrrelevant(groupMap)
  {
    hide Lists, IndexFor, Ascending;
    var r, q, g :| r in groupMap && q in groupMap && r != q && Lists(groupMap[r], g) && Lists(groupMap[q], g);
    var o, p := EndingWith(groupMap, r), EndingWith(groupMap, q);
    LastWins(o, groupMap, g, r);
    LastWins(p, groupMap, g, q);
    assert IndexFor(o, groupMap) != IndexFor(p, groupMap);
  }

  function EndingWith(groupMap: map<string, seq<string>>, r: string): (order: seq<string>)
    requires r in groupMap
    ensures Visits(order, groupMap) && order[|order| - 1] == r
  {
    var rest := Ascending(groupMap.Keys - {r});
    IncreasingDistinct(rest);
    rest + [r]
  }

  lemma LastWins(order: seq<string>, groupMap: map<string, seq<string>>, g: string, r: string)
    requires order != [] && order[|order| - 1] == r && forall x | x in order :: x in groupMap
    requires Lists(groupMap[r], g)
    ensures g in IndexFor(order, groupMap) && IndexFor(order, groupMap)[g] == r
  {
    hide Lists, WithGroups;
    WithGroupsAt(IndexFor(order[..|order| - 1], groupMap), r, groupMap[r], g);
  }

  lemma SameIndex(o: seq<string>, p: seq<string>, groupMap: map<string, seq<string>>)
    requires Disjoint(groupMap) && Visits(o, groupMap) && Visits(p, groupMap)
    ensures IndexFor(o, groupMap) == IndexFor(p, groupMap)
  {
    hide IndexFor, Lists;
    var m, n := IndexFor(o, groupMap), IndexFor(p, groupMap);
    forall g ensures (g in m <==> g in n) && (g in m ==> m[g] == n[g]) {
      DisjointOwner(o, groupMap, g);
      DisjointOwner(p, groupMap, g);
    }
  }

  /** With disjoint lists the index gives a group the role that lists it. */
  lemma DisjointOwner(order: seq<string>, groupMap: map<string, seq<string>>, g: string)
    requires Disjoint(groupMap) && Visits(order, groupMap)
    ensures var index := IndexFor(order, groupMap);
            && (g in index <==> exists r | r in groupMap :: Lists(groupMap[r], g))
            && (forall r | r in groupMap && Lists(groupMap[r], g) :: g in index && index[g] == r)
  {
    hide IndexFor, Lists;
    IndexedExactly(order, groupMap, g);
    IndexForAt(order, groupMap, g);
  }

  /** A group is indexed exactly when some role lists it. */
  lemma IndexedExactly(order: seq<string>, groupMap: map<string, seq<string>>, g: string)
    requires Visits(order, groupMap)
    ensures g in IndexFor(order, groupMap) <==> exists r | r in groupMap :: Lists(groupMap[r], g)
    ensures g in IndexFor(order, groupMap) ==> g != ""
  {
    hide IndexFor, Mentions;
    IndexForAt(order, groupMap, g);
    if g in IndexFor(order, groupMap) {
      var k: nat :| LastLister(order, groupMap, g, k);
      assert order[k] in groupMap;
    }
    forall r | r in groupMap && Lists(groupMap[r], g) ensures g in IndexFor(order, groupMap) {
      var k :| 0 <= k < |order| && order[k] == r;
      assert ListedAt(order, groupMap, g, k);
    }
  }

  // ---- Resolving ----

  /** The first value that, trimmed, is mapped. */
  function FirstMapped(index: map<string, string>, values: seq<string>): Option<string> {
    if values == [] then None
    else
      var earlier := FirstMapped(index, values[..|values| - 1]);
      var v := TrimSpace(values[|values| - 1]);
      if earlier.Some? then earlier
      else if v != "" && v in index then Some(v) else None
  }

  function RoleFor(s: RoleStore, values: seq<string>): Option<(string, seq<string>)> {
    match FirstMapped(s.groupIndex, values)
    case None => None
    case Some(g) =>
      FirstMappedIn(s.groupIndex, values);
      var role := s.groupIndex[g];
      Some((role, if role in s.roleScopes then s.roleScopes[role] else []))
  }

  lemma {:induction false} FirstMappedIn(index: map<string, string>, values: seq<string>)
    ensures FirstMapped(index, values).Some? ==> FirstMapped(index, values).value in index
  {
    if values != [] { FirstMappedIn(index, values[..|values| - 1]); }
  }

  lemma {:induction false} FirstMappedPrefix(index: map<string, string>, values: seq<string>, k: nat)
    requires k <= |values| && FirstMapped(index, values[..k]).Some?
    ensures FirstMapped(index, values) == FirstMapped(index, values[..k])
    decreases |values| - k
  {
    hide TrimSpace;
    if k == |values| {
      assert values[..k] == values;
    } else {
      assert values[..k + 1][..k] == values[..k];
      FirstMappedPrefix(index, values, k + 1);
    }
  }

  method Resolve(s: RoleStore, externals: seq<string>) returns (r: Option<(string, seq<string>)>)
    ensures r == RoleFor(s, externals)
  {
    hide TrimSpace;
    for i := 0 to |externals|
      invariant FirstMapped(s.groupIndex, externals[..i]).None?
    {
      assert externals[..i + 1][..i] == externals[..i];
      var value := TrimSpace(externals[i]);
      if value == "" { continue; }
      if value in s.groupIndex {
        FirstMappedPrefix(s.groupIndex, externals, i + 1);
        var role := s.groupIndex[value];
        return Some((role, if role in s.roleScopes then s.roleScopes[role] else []));
      }
    }
    assert externals[..|externals|] == externals;
    return None;
  }

  /** A role counts only with scopes. */
  function Determined(s: RoleStore, groups: seq<string>): Option<(string, seq<string>)> {
    var found := RoleFor(s, groups);
    if found.Some? && found.value.1 != [] then found else None
  }

  /** `determineRole`: none means the user is not in any authorised group. */
  method DetermineRole(s: RoleStore, groups: seq<string>) returns (r: Option<(string, seq<string>)>)
    ensures r == Determined(s, groups)
  {
    hide RoleFor, Distinct;
    DedupeIrrelevant(s, groups);
    NothingMapped(s);
    var distinct := Dedupe(groups);
    if distinct == [] { return None; }
    var found := Resolve(s, distinct);
    if found.None? || found.value.1 == [] { return None; }
    return found;
  }

  lemma NothingMapped(s: RoleStore)
    ensures RoleFor(s, []) == None
  {
  }

  /** Removing duplicates first does not change which group decides. */
  lemma {:induction false} DedupeKeepsFirst(index: map<string, string>, values: seq<string>)
    ensures FirstMapped(index, Distinct(values)) == FirstMapped(index, values)
    ensures FirstMapped(index, values).None? ==> forall v | v in Distinct(values) :: v !in index
  {
    hide TrimSpace, Trimmed;
    if values != [] {
      var n := |values| - 1;
      DedupeKeepsFirst(index, values[..n]);
      FirstMappedAppend(index, Distinct(values[..n]), TrimSpace(values[n]));
    }
  }

  lemma FirstMappedAppend(index: map<string, string>, before: seq<string>, v: string)
    requires Trimmed(v)
    ensures FirstMapped(index, before + [v]) ==
            if FirstMapped(index, before).Some? then FirstMapped(index, before)
            else if v != "" && v in index then Some(v) else None
  {
    hide TrimSpace, Trimmed;
    TrimmedStays(v);
    assert (before + [v])[..|before|] == before;
  }

  lemma DedupeIrrelevant(s: RoleStore, groups: seq<string>)
    ensures RoleFor(s, Distinct(groups)) == RoleFor(s, groups)
  {
    DedupeKeepsFirst(s.groupIndex, groups);
  }

  /** Value `i` is the first whose trimmed form is mapped. */
  ghost predicate Decides(index: map<string, string>, values: seq<string>, i: nat)
    requires i < |values|
  {
    && TrimSpace(values[i]) != "" && TrimSpace(values[i]) in index
    && forall j | 0 <= j < i :: TrimSpace(values[j]) == "" || TrimSpace(values[j]) !in index
  }

  lemma {:induction false} FirstMappedDecides(index: map<string, string>, values: seq<string>)
    ensures match FirstMapped(index, values)
            case Some(g) => exists i: nat | i < |values| :: Decides(index, values, i) && g == TrimSpace(values[i])
            case None => forall i | 0 <= i < |values| :: TrimSpace(values[i]) == "" || TrimSpace(values[i]) !in index
  {
    hide TrimSpace;
    if values != [] {
      var n := |values| - 1;
      FirstMappedDecides(index, values[..n]);
      assert forall j | 0 <= j < n :: values[..n][j] == values[j];
      if FirstMapped(index, values[..n]).Some? {
        var i: nat :| i < n && Decides(index, values[..n], i) && FirstMapped(index, values[..n]).value == TrimSpace(values[..n][i]);
        assert Decides(index, values, i);
      } else if FirstMapped(index, values).Some? {
        assert Decides(index, values, n);
      }
    }
  }

  /** Resolution from the mapping itself: with disjoint lists, whatever order
      built the index, the user gets the role that lists the first of their
      groups listed by any role, with that role's scopes. */
  lemma ResolutionMeaning(s: RoleStore, order: seq<string>, groupMap: map<string, seq<string>>, groups: seq<string>, i: nat, role: string)
    requires Disjoint(groupMap) && Visits(order, groupMap) && s.groupIndex == IndexFor(order, groupMap)
    requires i < |groups| && role in groupMap && role in s.roleScopes
    requires Lists(groupMap[role], TrimSpace(groups[i]))
    requires forall j, r | 0 <= j < i && r in groupMap :: !Lists(groupMap[r], TrimSpace(groups[j]))
    ensures RoleFor(s, groups) == Some((role, s.roleScopes[role]))
  {
    hide TrimSpace, IndexFor, Mentions;
    forall g ensures g in s.groupIndex <==> exists r | r in groupMap :: Lists(groupMap[r], g) {
      DisjointOwner(order, groupMap, g);
    }
    DisjointOwner(order, groupMap, TrimSpace(groups[i]));
    assert Decides(s.groupIndex, groups, i);
    FirstMappedDecides(s.groupIndex, groups);
  }

  /** `role` lists the first of the groups that any role lists. */
  ghost predicate FirstListing(groupMap: map<string, seq<string>>, groups: seq<string>, role: string) {
    exists i: nat | i < |groups| :: FirstListingAt(groupMap, groups, role, i)
  }

  ghost predicate FirstListingAt(groupMap: map<string, seq<string>>, groups: seq<string>, role: string, i: nat)
    requires i < |groups|
  {
    && role in groupMap && Lists(groupMap[role], TrimSpace(groups[i]))
    && forall j, r | 0 <= j < i && r in groupMap :: !Lists(groupMap[r], TrimSpace(groups[j]))
  }

  /** From the configuration to the user: with a valid document and disjoint
      lists, whatever order the mapping was visited in, logging in yields a role
      and scopes exactly when the role lists the first listed group of the user
      and those are the distinct scopes of the last entry of its name, and there
      are some. */
  lemma LoginRole(defaultRole: string, entries: seq<RoleEntry>, groupMap: map<string, seq<string>>, order: seq<string>,
                  s: RoleStore, groups: seq<string>, role: string, scopes: seq<string>)
    requires Valid(defaultRole, entries, groupMap) && Disjoint(groupMap) && Visits(order, groupMap)
    requires s.groupIndex == IndexFor(order, groupMap) && RolesOf(s.roleScopes, entries)
    ensures Determined(s, groups) == Some((role, scopes)) <==>
              && FirstListing(groupMap, groups, role) && scopes != []
              && exists i: nat :: LastNamed(entries, i, role) && scopes == Distinct(entries[i].scopes)
  {
    hide TrimSpace, IndexFor, Lists, Disjoint, Visits, Distinct, Defines, LastNamed;
    if role in groupMap { DefinedHasLast(entries, role); }
    if FirstListing(groupMap, groups, role) {
      var i: nat :| i < |groups| && FirstListingAt(groupMap, groups, role, i);
      ResolutionMeaning(s, order, groupMap, groups, i, role);
    }
    if RoleFor(s, groups) == Some((role, scopes)) {
      RoleIsFirstListing(s, order, groupMap, groups);
    }
  }

  lemma DefinedHasLast(entries: seq<RoleEntry>, role: string)
    requires Defines(entries, role)
    ensures exists i: nat :: LastNamed(entries, i, role)
    ensures forall i: nat, k: nat | LastNamed(entries, i, role) && LastNamed(entries, k, role) :: i == k
  {
    hide TrimSpace, Distinct;
    ScopesMeaning(entries, role);
  }

  lemma RoleIsFirstListing(s: RoleStore, order: seq<string>, groupMap: map<string, seq<string>>, groups: seq<string>)
    requires Disjoint(groupMap) && Visits(order, groupMap) && s.groupIndex == IndexFor(order, groupMap)
    requires RoleFor(s, groups).Some?
    ensures FirstListing(groupMap, groups, RoleFor(s, groups).value.0)
  {
    hide TrimSpace, IndexFor, Mentions, Disjoint, Visits;
    FirstMappedDecides(s.groupIndex, groups);
    var i: nat :| i < |groups| && Decides(s.groupIndex, groups, i) && FirstMapped(s.groupIndex, groups).value == TrimSpace(groups[i]);
    forall g ensures g in s.groupIndex <==> exists r | r in groupMap :: Lists(groupMap[r], g) {
      DisjointOwner(order, groupMap, g);
    }
    DisjointOwner(order, groupMap, TrimSpace(groups[i]));
    assert FirstListingAt(groupMap, groups, RoleFor(s, groups).value.0, i);
  }

  lemma NoRoleMeaning(s: RoleStore, order: seq<string>, groupMap: map<string, seq<string>>, groups: seq<string>)
    requires Visits(order, groupMap) && s.groupIndex == IndexFor(order, groupMap)
    ensures RoleFor(s, groups) == None <==>
            forall j, r | 0 <= j < |groups| && r in groupMap :: !Lists(groupMap[r], TrimSpace(groups[j]))
  {
    hide TrimSpace, IndexFor, Mentions;
    forall g ensures g in s.groupIndex ==> g != ""
             ensures g in s.groupIndex <==> exists r | r in groupMap :: Lists(groupMap[r], g) {
      IndexedExactly(order, groupMap, g);
    }
    FirstMappedDecides(s.groupIndex, groups);
  }
}
