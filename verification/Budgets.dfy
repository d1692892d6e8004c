/** Budget accounts: reservations, what they come to, and when spending passes a limit. */
module Budgets {
  import opened Ordering

  type Quantities = map<string, int>

  function Amount(m: Quantities, r: string): int { if r in m then m[r] else 0 }

  function Plus(m: Quantities, n: Quantities): Quantities {
    map r | r in m.Keys + n.Keys :: Amount(m, r) + Amount(n, r)
  }

  datatype State = Reserved | Committed | Released

  /** A group of reservations, one for each resource; the group changes state as a whole. */
  datatype Group = Group(id: string, amounts: Quantities, consumed: Quantities, state: State, child: Option<string>)

  datatype Account = Account(limits: Quantities, run: Option<string>, parent: Option<string>, groups: seq<Group>,
                             active: bool)

  type Accounts = map<string, Account>

  // ---------------------------------------------------------------- what reservations come to

  function Held(g: Group, r: string): int {
    match g.state
    case Reserved => Amount(g.amounts, r)
    case Committed => Amount(g.consumed, r)
    case Released => 0
  }

  /** Reserved and committed of a resource. */
  function Used(groups: seq<Group>, r: string): int {
    if groups == [] then 0 else Used(groups[..|groups| - 1], r) + Held(groups[|groups| - 1], r)
  }

  function CommittedOf(groups: seq<Group>): Quantities {
    if groups == [] then map[]
    else
      var front, last := CommittedOf(groups[..|groups| - 1]), groups[|groups| - 1];
      if last.state.Committed? then Plus(front, last.consumed) else front
  }

  /** What is left of a limited resource, never below zero even when more was committed than reserved. */
  function Remaining(a: Account, r: string): int {
    var left := Amount(a.limits, r) - Used(a.groups, r);
    if r in a.limits && left > 0 then left else 0
  }

  function Find(groups: seq<Group>, id: string): (i: int)
    ensures i == -1 || (0 <= i < |groups| && groups[i].id == id)
  {
    if groups == [] then -1
    else if groups[|groups| - 1].id == id then |groups| - 1
    else Find(groups[..|groups| - 1], id)
  }

  // ---------------------------------------------------------------- the operations; none is a raise

  function NewAccount(limits: Quantities, run: string, parent: Option<string>): Account {
    Account(limits, Some(run), parent, [], true)
  }

  function GroupOf(accounts: Accounts, id: string, group: string): int {
    if id in accounts then Find(accounts[id].groups, group) else -1
  }

  predicate Affords(a: Account, quantities: Quantities) {
    forall r :: r in quantities ==> 0 < quantities[r] <= Remaining(a, r)
  }

  /** `reserve`. */
  function Reserve(accounts: Accounts, id: string, group: string, quantities: Quantities,
                   child: Option<string>): Option<Accounts> {
    if quantities == map[] || (exists r :: r in quantities && quantities[r] <= 0) then None
    else if id !in accounts || !accounts[id].active then None
    else
      var a, i := accounts[id], GroupOf(accounts, id, group);
      if i >= 0 then (if a.groups[i].amounts == quantities && a.groups[i].child == child then Some(accounts) else None)
      else if !Affords(a, quantities) then None
      else Some(accounts[id := a.(groups := a.groups + [Group(group, quantities, map[], Reserved, child)])])
  }

  /** The group once `consumed` is committed. */
  function Settled(g: Group, consumed: Quantities): Group {
    g.(consumed := map r | r in g.amounts :: Amount(consumed, r), state := Committed)
  }

  function WithGroup(accounts: Accounts, id: string, i: int, g: Group): Accounts
    requires id in accounts && 0 <= i < |accounts[id].groups|
  {
    accounts[id := accounts[id].(groups := accounts[id].groups[i := g])]
  }

  /** `commit`: more than was reserved only with `overrun`. */
  function Commit(accounts: Accounts, id: string, group: string, consumed: Quantities,
                  overrun: bool): (r: Option<Accounts>)
    ensures r.Some? ==> r.value.Keys == accounts.Keys
  {
    var i := GroupOf(accounts, id, group);
    if i < 0 then None
    else
      var g := accounts[id].groups[i];
      if !(consumed.Keys <= g.amounts.Keys) then None
      else if !g.state.Reserved? then
        if g.state.Committed? && forall r :: r in consumed ==> Amount(g.consumed, r) == consumed[r] then Some(accounts) else None
      else if exists r :: r in consumed && (consumed[r] < 0 || (consumed[r] > g.amounts[r] && !overrun)) then None
      else Some(WithGroup(accounts, id, i, Settled(g, consumed)))
  }

  /** `release`. */
  function Release(accounts: Accounts, id: string, group: string): Option<Accounts> {
    var i := GroupOf(accounts, id, group);
    if i < 0 || accounts[id].groups[i].state.Committed? then None
    else if accounts[id].groups[i].state.Released? then Some(accounts)
    else Some(WithGroup(accounts, id, i, accounts[id].groups[i].(state := Released)))
  }

  const ALLOCATION := "child-allocation:"

  function Allocation(child: string): string { ALLOCATION + child }

  /** `close_child_account`: what the child committed is committed in its parent. */
  function CloseChild(accounts: Accounts, id: string): Option<Accounts> {
    if id !in accounts || accounts[id].parent.None? then None
    else if !accounts[id].active then Some(accounts)
    else
      var spent := CommittedOf(accounts[id].groups);
      var charged := Commit(accounts, accounts[id].parent.value, Allocation(id), spent, true);
      if charged.None? then None
      else Some(charged.value[id := charged.value[id].(active := false)])
  }

  /** `create_account`: an existing account must agree, a new child account is reserved from its parent. */
  function Create(accounts: Accounts, id: string, run: string, parent: Option<string>,
                  limits: Quantities): Option<Accounts> {
    if id in accounts then
      if accounts[id].limits == limits && accounts[id].run == Some(run) && accounts[id].parent == parent
      then Some(accounts) else None
    else if parent.None? then Some(accounts[id := NewAccount(limits, run, None)])
    else if parent.value !in accounts || !accounts[parent.value].active then None
    else if exists r :: r in limits && limits[r] > Remaining(accounts[parent.value], r) then None
    else
      var listed := accounts[id := NewAccount(limits, run, parent)];
      if limits == map[] then Some(listed) else Reserve(listed, parent.value, Allocation(id), limits, Some(id))
  }

  // ---------------------------------------------------------------- sums

  lemma UsedAppend(groups: seq<Group>, g: Group, r: string)
    ensures Used(groups + [g], r) == Used(groups, r) + Held(g, r)
  {
    assert (groups + [g])[..|groups|] == groups;
  }

  lemma {:induction false} UsedUpdate(groups: seq<Group>, i: int, g: Group, r: string)
    requires 0 <= i < |groups|
    ensures Used(groups[i := g], r) == Used(groups, r) - Held(groups[i], r) + Held(g, r)
    decreases |groups|
  {
    var n := |groups| - 1;
    if i < n {
      assert groups[i := g][..n] == groups[..n][i := g];
      UsedUpdate(groups[..n], i, g, r);
    } else {
      assert groups[i := g][..n] == groups[..n];
    }
  }

  function CommittedIn(g: Group, r: string): int { if g.state.Committed? then Amount(g.consumed, r) else 0 }

  lemma {:induction false} CommittedUpdate(groups: seq<Group>, i: int, g: Group, r: string)
    requires 0 <= i < |groups|
    ensures Amount(CommittedOf(groups[i := g]), r)
      == Amount(CommittedOf(groups), r) - CommittedIn(groups[i], r) + CommittedIn(g, r)
    decreases |groups|
  {
    var n := |groups| - 1;
    CommittedLast(groups, r);
    CommittedLast(groups[i := g], r);
    if i < n {
      assert groups[i := g][..n] == groups[..n][i := g];
      CommittedUpdate(groups[..n], i, g, r);
    } else {
      assert groups[i := g][..n] == groups[..n];
    }
  }

  lemma CommittedLast(groups: seq<Group>, r: string)
    requires groups != []
    ensures Amount(CommittedOf(groups), r)
      == Amount(CommittedOf(groups[..|groups| - 1]), r) + CommittedIn(groups[|groups| - 1], r)
  {
  }

  /** Amounts are positive and consumption is not negative. */
  ghost predicate SaneGroup(g: Group) {
    (forall r :: r in g.amounts ==> g.amounts[r] > 0) && (forall r :: r in g.consumed ==> g.consumed[r] >= 0)
  }

  ghost predicate Sane(groups: seq<Group>) {
    forall i :: 0 <= i < |groups| ==> SaneGroup(groups[i])
  }

  /** What an account committed is part of what it uses. */
  lemma {:induction false} CommittedWithinUsed(groups: seq<Group>, r: string)
    requires Sane(groups)
    ensures 0 <= Amount(CommittedOf(groups), r) <= Used(groups, r)
  {
    if groups != [] {
      var front, last := groups[..|groups| - 1], groups[|groups| - 1];
      CommittedWithinUsed(front, r);
      assert SaneGroup(last);
      assert last.state.Committed? ==> Amount(CommittedOf(groups), r) == Amount(CommittedOf(front), r) + Amount(last.consumed, r);
    }
  }

  /** A group is found exactly when there is one of its name. */
  lemma {:induction false} FindNone(groups: seq<Group>, id: string)
    ensures Find(groups, id) < 0 <==> forall k :: 0 <= k < |groups| ==> groups[k].id != id
  {
    if groups != [] {
      var n := |groups| - 1;
      FindNone(groups[..n], id);
      assert forall k :: 0 <= k < n ==> groups[..n][k] == groups[k];
    }
  }

  lemma {:induction false} FindAppend(groups: seq<Group>, g: Group, id: string)
    ensures Find(groups + [g], id) == if g.id == id then |groups| else Find(groups, id)
  {
    assert (groups + [g])[..|groups|] == groups;
  }

  lemma {:induction false} FindUpdate(groups: seq<Group>, i: int, g: Group, id: string)
    requires 0 <= i < |groups| && g.id == groups[i].id
    ensures Find(groups[i := g], id) == Find(groups, id)
    decreases |groups|
  {
    var n := |groups| - 1;
    if i < n {
      assert groups[i := g][..n] == groups[..n][i := g];
      FindUpdate(groups[..n], i, g, id);
    } else {
      assert groups[i := g][..n] == groups[..n];
    }
  }

  // ---------------------------------------------------------------- the ledger

  /** A child's limits stand reserved, or committed or released, in its parent, under its own allocation. */
  ghost predicate Allocated(accounts: Accounts, c: string)
    requires c in accounts
  {
    accounts[c].parent.Some? && accounts[c].limits != map[] ==>
      var p := accounts[c].parent.value; var i := GroupOf(accounts, p, Allocation(c));
      i >= 0 && accounts[p].groups[i].amounts == accounts[c].limits
  }

  ghost predicate Ledger(accounts: Accounts) {
    && (forall k :: k in accounts ==> Sane(accounts[k].groups))
    && forall k :: k in accounts ==> Allocated(accounts, k)
  }

  /** Nothing is overrun: what is reserved and committed lies within the limits. */
  ghost predicate WithinLimits(a: Account) {
    forall r :: Used(a.groups, r) <= Amount(a.limits, r)
  }

  ghost predicate BudgetsOk(accounts: Accounts) {
    forall k :: k in accounts ==> WithinLimits(accounts[k])
  }

  predicate SameAccount(a: Account, b: Account) {
    a.limits == b.limits && a.run == b.run && a.parent == b.parent
  }

  /** No account is lost or changes its identity. */
  ghost predicate AccountsKept(a: Accounts, b: Accounts) {
    forall k :: k in a ==> k in b && SameAccount(a[k], b[k])
  }

  // ---------------------------------------------------------------- one group added or changed

  lemma AddGroup(accounts: Accounts, id: string, g: Group)
    requires Ledger(accounts) && id in accounts && SaneGroup(g) && Find(accounts[id].groups, g.id) < 0
    ensures var after := accounts[id := accounts[id].(groups := accounts[id].groups + [g])];
      Ledger(after) && AccountsKept(accounts, after)
  {
    var after := accounts[id := accounts[id].(groups := accounts[id].groups + [g])];
    forall k | k in after ensures Allocated(after, k) {
      assert Allocated(accounts, k);
      FindAppend(accounts[id].groups, g, Allocation(k));
    }
  }

  lemma ChangeGroup(accounts: Accounts, id: string, i: int, g: Group)
    requires Ledger(accounts) && id in accounts && 0 <= i < |accounts[id].groups| && SaneGroup(g)
    requires g.id == accounts[id].groups[i].id && g.amounts == accounts[id].groups[i].amounts
    ensures Ledger(WithGroup(accounts, id, i, g)) && AccountsKept(accounts, WithGroup(accounts, id, i, g))
  {
    var after := WithGroup(accounts, id, i, g);
    forall k | k in after ensures Allocated(after, k) {
      assert Allocated(accounts, k);
      FindUpdate(accounts[id].groups, i, g, Allocation(k));
    }
  }

  /** Changing one group keeps all budgets exactly when its account still has room for what the group holds. */
  lemma ChangeGroupBudgets(accounts: Accounts, id: string, i: int, g: Group)
    requires BudgetsOk(accounts) && id in accounts && 0 <= i < |accounts[id].groups|
    ensures BudgetsOk(WithGroup(accounts, id, i, g)) <==> forall r ::
      Used(accounts[id].groups, r) - Held(accounts[id].groups[i], r) + Held(g, r) <= Amount(accounts[id].limits, r)
  {
    var after := WithGroup(accounts, id, i, g);
    forall r ensures Used(after[id].groups, r)
      == Used(accounts[id].groups, r) - Held(accounts[id].groups[i], r) + Held(g, r)
    {
      UsedUpdate(accounts[id].groups, i, g, r);
    }
    assert WithinLimits(after[id]) <==> forall r ::
      Used(accounts[id].groups, r) - Held(accounts[id].groups[i], r) + Held(g, r) <= Amount(accounts[id].limits, r);
    assert forall k :: k in accounts && k != id ==> after[k] == accounts[k];
  }

  lemma AddGroupBudgets(accounts: Accounts, id: string, g: Group)
    requires BudgetsOk(accounts) && id in accounts && g.state.Reserved? && Affords(accounts[id], g.amounts)
    ensures BudgetsOk(accounts[id := accounts[id].(groups := accounts[id].groups + [g])])
  {
    var a := accounts[id];
    forall r ensures Used(a.groups + [g], r) <= Amount(a.limits, r) {
      UsedAppend(a.groups, g, r);
      assert WithinLimits(a);
      assert r in g.amounts ==> 0 < g.amounts[r] <= Remaining(a, r);
    }
  }

  // ---------------------------------------------------------------- what the operations do

  /** Nothing else in the account, and no other account, differs. */
  ghost predicate OnlyGroups(before: Accounts, after: Accounts, id: string) {
    id in before && id in after && after == before[id := before[id].(groups := after[id].groups)]
  }

  /** There is room for the quantities beside what is reserved and committed. */
  ghost predicate Room(a: Account, quantities: Quantities) {
    forall r :: r in quantities ==> r in a.limits && Used(a.groups, r) + quantities[r] <= a.limits[r]
  }

  /** When a reservation goes through, and what it adds: the group, once. */
  lemma ReserveExact(accounts: Accounts, id: string, group: string, quantities: Quantities, child: Option<string>)
    ensures Reserve(accounts, id, group, quantities, child).Some? <==>
      && quantities != map[] && (forall r :: r in quantities ==> quantities[r] > 0)
      && id in accounts && accounts[id].active
      && if GroupOf(accounts, id, group) < 0 then Room(accounts[id], quantities)
         else var g := accounts[id].groups[GroupOf(accounts, id, group)]; g.amounts == quantities && g.child == child
    ensures var after := Reserve(accounts, id, group, quantities, child);
      after.Some? ==>
        if GroupOf(accounts, id, group) >= 0 then after.value == accounts
        else
          && OnlyGroups(accounts, after.value, id)
          && after.value[id].groups == accounts[id].groups
             + [Group(id := group, amounts := quantities, consumed := map[], state := Reserved, child := child)]
          && forall r :: Used(after.value[id].groups, r) == Used(accounts[id].groups, r) + Amount(quantities, r)
  {
    if id in accounts {
      var groups := accounts[id].groups;
      var g := Group(group, quantities, map[], Reserved, child);
      forall r ensures Used(groups + [g], r) == Used(groups, r) + Amount(quantities, r) { UsedAppend(groups, g, r); }
    }
  }

  /** The reservation group is there and its consumption can be recorded. */
  ghost predicate Committable(g: Group, consumed: Quantities, overrun: bool) {
    && consumed.Keys <= g.amounts.Keys
    && match g.state
       case Reserved => forall r :: r in consumed ==> 0 <= consumed[r] && (consumed[r] <= g.amounts[r] || overrun)
       case Committed => forall r :: r in consumed ==> Amount(g.consumed, r) == consumed[r]
       case Released => false
  }

  /** When a commit goes through, and what it does: the consumption takes the place of the reservation. A
      commit that is repeated changes nothing. */
  lemma CommitDoes(accounts: Accounts, id: string, group: string, consumed: Quantities, overrun: bool)
    ensures var i := GroupOf(accounts, id, group);
      Commit(accounts, id, group, consumed, overrun).Some? <==> i >= 0 && Committable(accounts[id].groups[i], consumed, overrun)
    ensures var i, after := GroupOf(accounts, id, group), Commit(accounts, id, group, consumed, overrun);
      after.Some? ==>
        if accounts[id].groups[i].state.Committed? then after.value == accounts
        else
          && OnlyGroups(accounts, after.value, id)
          && GroupOf(after.value, id, group) == i && after.value[id].groups[i].state.Committed?
          && (forall r :: Amount(CommittedOf(after.value[id].groups), r)
               == Amount(CommittedOf(accounts[id].groups), r) + Amount(consumed, r))
          && forall r :: Used(after.value[id].groups, r)
               == Used(accounts[id].groups, r) - Amount(accounts[id].groups[i].amounts, r) + Amount(consumed, r)
  {
    var i := GroupOf(accounts, id, group);
    if i >= 0 {
      var groups := accounts[id].groups;
      var settled := Settled(groups[i], consumed);
      if groups[i].state.Reserved? && Committable(groups[i], consumed, overrun) {
        FindUpdate(groups, i, settled, group);
        forall r
          ensures Amount(CommittedOf(groups[i := settled]), r) == Amount(CommittedOf(groups), r) + Amount(consumed, r)
          ensures Used(groups[i := settled], r) == Used(groups, r) - Amount(groups[i].amounts, r) + Amount(consumed, r)
        {
          CommittedUpdate(groups, i, settled, r);
          UsedUpdate(groups, i, settled, r);
        }
      }
    }
  }

  /** When a release goes through, and what it does: it gives back what was reserved. */
  lemma ReleaseDoes(accounts: Accounts, id: string, group: string)
    ensures var i := GroupOf(accounts, id, group);
      Release(accounts, id, group).Some? <==> i >= 0 && !accounts[id].groups[i].state.Committed?
    ensures var i, after := GroupOf(accounts, id, group), Release(accounts, id, group);
      after.Some? ==>
        if accounts[id].groups[i].state.Released? then after.value == accounts
        else
          && OnlyGroups(accounts, after.value, id)
          && GroupOf(after.value, id, group) == i && after.value[id].groups[i].state.Released?
          && forall r :: Used(after.value[id].groups, r)
               == Used(accounts[id].groups, r) - Amount(accounts[id].groups[i].amounts, r)
  {
    var i := GroupOf(accounts, id, group);
    if i >= 0 {
      var groups := accounts[id].groups;
      var released := groups[i].(state := Released);
      FindUpdate(groups, i, released, group);
      forall r ensures Used(groups[i := released], r) == Used(groups, r) - Held(groups[i], r) {
        UsedUpdate(groups, i, released, r);
      }
    }
  }

  /** When a child's account can be closed, and what that does: what the child committed is committed in its
      parent, by this closing or before, and the child takes no more reservations. */
  lemma CloseDoes(accounts: Accounts, id: string)
    ensures CloseChild(accounts, id).Some? <==>
      && id in accounts && accounts[id].parent.Some?
      && (accounts[id].active ==> var p := accounts[id].parent.value; var i := GroupOf(accounts, p, "child-allocation:" + id);
            i >= 0 && Committable(accounts[p].groups[i], CommittedOf(accounts[id].groups), true))
    ensures CloseChild(accounts, id).Some? && !accounts[id].active ==> CloseChild(accounts, id).value == accounts
    ensures CloseChild(accounts, id).Some? && accounts[id].active ==>
      var p, spent, after := accounts[id].parent.value, CommittedOf(accounts[id].groups), CloseChild(accounts, id).value;
      && accounts.Keys == after.Keys && !after[id].active && (p != id ==> after[id].groups == accounts[id].groups)
      && (forall k :: k in accounts && k != p && k != id ==> after[k] == accounts[k])
      && (accounts[p].groups[GroupOf(accounts, p, "child-allocation:" + id)].state.Reserved? ==>
            forall r :: Amount(CommittedOf(after[p].groups), r) == Amount(CommittedOf(accounts[p].groups), r) + Amount(spent, r))
      && (accounts[p].groups[GroupOf(accounts, p, "child-allocation:" + id)].state.Committed? ==>
            after[p].groups == accounts[p].groups
            && forall r :: r in spent ==>
                 Amount(accounts[p].groups[GroupOf(accounts, p, "child-allocation:" + id)].consumed, r) == spent[r])
  {
    if id in accounts && accounts[id].parent.Some? && accounts[id].active {
      CommitDoes(accounts, accounts[id].parent.value, Allocation(id), CommittedOf(accounts[id].groups), true);
    }
  }

  /** When an account can be created, and what that does: the account itself, and the reservation of its limits
      in its parent. */
  lemma CreateDoes(accounts: Accounts, id: string, run: string, parent: Option<string>, limits: Quantities)
    requires id !in accounts
    ensures Create(accounts, id, run, parent, limits).Some? <==>
      (parent.Some? ==>
        && parent.value in accounts && accounts[parent.value].active
        && (forall r :: r in limits ==> limits[r] <= Remaining(accounts[parent.value], r))
        && (limits != map[] ==> ReservesAllocation(accounts, id, parent.value, limits)))
    ensures Create(accounts, id, run, parent, limits).Some? ==>
      var after := Create(accounts, id, run, parent, limits).value;
      && id in after && after[id] == Account(limits := limits, run := Some(run), parent := parent, groups := [], active := true)
      && (parent.None? || limits == map[] ==> after == accounts[id := after[id]])
      && (parent.Some? && limits != map[] ==>
            && parent.value in after && (forall k :: k in after <==> k in accounts || k == id)
            && (forall k :: k in accounts && k != parent.value ==> after[k] == accounts[k])
            && var i := GroupOf(after, parent.value, "child-allocation:" + id);
               i >= 0 && after[parent.value].groups[i].amounts == limits && after[parent.value].groups[i].child == Some(id))
  {
    if parent.Some? && parent.value in accounts && limits != map[] {
      var p := parent.value;
      var listed := accounts[id := NewAccount(limits, run, parent)];
      ReserveExact(listed, p, Allocation(id), limits, Some(id));
      FindAppend(accounts[p].groups, Group(Allocation(id), limits, map[], Reserved, Some(id)), Allocation(id));
      assert listed[p] == accounts[p];
    }
  }

  /** The parent can reserve a child's limits, or has done so. */
  ghost predicate ReservesAllocation(accounts: Accounts, id: string, p: string, limits: Quantities)
    requires p in accounts
  {
    && (forall r :: r in limits ==> limits[r] > 0)
    && if GroupOf(accounts, p, "child-allocation:" + id) < 0 then Room(accounts[p], limits)
       else var g := accounts[p].groups[GroupOf(accounts, p, "child-allocation:" + id)];
         g.amounts == limits && g.child == Some(id)
  }

  // ---------------------------------------------------------------- what the operations keep

  /** Reserving never breaks a limit. */
  lemma ReserveKeeps(accounts: Accounts, id: string, group: string, quantities: Quantities, child: Option<string>)
    requires Ledger(accounts) && Reserve(accounts, id, group, quantities, child).Some?
    ensures var after := Reserve(accounts, id, group, quantities, child).value;
      Ledger(after) && AccountsKept(accounts, after) && (BudgetsOk(accounts) ==> BudgetsOk(after))
  {
    if GroupOf(accounts, id, group) < 0 {
      var g := Group(group, quantities, map[], Reserved, child);
      AddGroup(accounts, id, g);
      if BudgetsOk(accounts) { AddGroupBudgets(accounts, id, g); }
    }
  }

  /** Releasing never breaks a limit. */
  lemma ReleaseKeeps(accounts: Accounts, id: string, group: string)
    requires Ledger(accounts) && Release(accounts, id, group).Some?
    ensures var after := Release(accounts, id, group).value;
      Ledger(after) && AccountsKept(accounts, after) && (BudgetsOk(accounts) ==> BudgetsOk(after))
  {
    var i := GroupOf(accounts, id, group);
    var g := accounts[id].groups[i];
    if g.state.Reserved? {
      assert SaneGroup(g);
      ChangeGroup(accounts, id, i, g.(state := Released));
      if BudgetsOk(accounts) {
        ChangeGroupBudgets(accounts, id, i, g.(state := Released));
        assert WithinLimits(accounts[id]);
      }
    }
  }

  /** What a caller can check before committing: of each resource the group reserved, what is consumed is at
      most the reservation and what remains. */
  predicate CommitFits(accounts: Accounts, id: string, group: string, consumed: Quantities) {
    var i := GroupOf(accounts, id, group);
    i >= 0 && accounts[id].groups[i].state.Reserved? ==>
      forall r :: r in accounts[id].groups[i].amounts ==>
        Amount(consumed, r) <= accounts[id].groups[i].amounts[r] + Remaining(accounts[id], r)
  }

  /** A commit keeps the limits exactly when it fits. */
  lemma CommitExact(accounts: Accounts, id: string, group: string, consumed: Quantities, overrun: bool)
    requires Ledger(accounts) && Commit(accounts, id, group, consumed, overrun).Some?
    ensures var after := Commit(accounts, id, group, consumed, overrun).value;
      && Ledger(after) && AccountsKept(accounts, after)
      && (BudgetsOk(accounts) ==> (BudgetsOk(after) <==> CommitFits(accounts, id, group, consumed)))
  {
    var i := GroupOf(accounts, id, group);
    var a, g := accounts[id], accounts[id].groups[i];
    if g.state.Reserved? {
      var settled := Settled(g, consumed);
      assert SaneGroup(g);
      assert SaneGroup(settled);
      ChangeGroup(accounts, id, i, settled);
      if BudgetsOk(accounts) {
        ChangeGroupBudgets(accounts, id, i, settled);
        SettledFits(a, i, consumed);
      }
    }
  }

  lemma SettledFits(a: Account, i: int, consumed: Quantities)
    requires WithinLimits(a) && Sane(a.groups) && 0 <= i < |a.groups| && a.groups[i].state.Reserved?
    ensures (forall r :: Used(a.groups, r) - Held(a.groups[i], r) + Held(Settled(a.groups[i], consumed), r) <= Amount(a.limits, r))
       <==> forall r :: r in a.groups[i].amounts ==> Amount(consumed, r) <= a.groups[i].amounts[r] + Remaining(a, r)
  {
    var g := a.groups[i];
    forall r
      ensures Used(a.groups, r) - Held(g, r) + Held(Settled(g, consumed), r) <= Amount(a.limits, r)
        <==> (r in g.amounts ==> Amount(consumed, r) <= g.amounts[r] + Remaining(a, r))
    {
      HeldWithinUsed(a.groups, i, r);
      assert SaneGroup(g) && Used(a.groups, r) <= Amount(a.limits, r);
    }
  }

  lemma {:induction false} HeldWithinUsed(groups: seq<Group>, i: int, r: string)
    requires Sane(groups) && 0 <= i < |groups|
    ensures 0 <= Held(groups[i], r) <= Used(groups, r)
    decreases |groups|
  {
    var n := |groups| - 1;
    assert SaneGroup(groups[n]);
    if i < n {
      HeldWithinUsed(groups[..n], i, r);
    } else {
      CommittedWithinUsed(groups[..n], r);
    }
  }

  /** Within what was reserved a commit always fits. */
  lemma OrdinaryCommitFits(accounts: Accounts, id: string, group: string, consumed: Quantities)
    requires Ledger(accounts) && Commit(accounts, id, group, consumed, false).Some?
    ensures CommitFits(accounts, id, group, consumed)
  {
    var i := GroupOf(accounts, id, group);
    assert SaneGroup(accounts[id].groups[i]);
  }

  /** What a child within its limits committed fits into its allocation. */
  lemma ChargeFits(accounts: Accounts, id: string)
    requires Ledger(accounts) && BudgetsOk(accounts) && id in accounts && accounts[id].parent.Some?
    ensures CommitFits(accounts, accounts[id].parent.value, Allocation(id), CommittedOf(accounts[id].groups))
  {
    var p, spent := accounts[id].parent.value, CommittedOf(accounts[id].groups);
    var i := GroupOf(accounts, p, Allocation(id));
    if i >= 0 {
      var g := accounts[p].groups[i];
      assert SaneGroup(g) && Allocated(accounts, id);
      forall r | r in g.amounts ensures Amount(spent, r) <= g.amounts[r] + Remaining(accounts[p], r) {
        CommittedWithinUsed(accounts[id].groups, r);
        assert WithinLimits(accounts[id]);
      }
    }
  }

  /** Closing a child never breaks a limit that was kept, though it may pass on an overrun. */
  lemma CloseKeeps(accounts: Accounts, id: string)
    requires Ledger(accounts) && CloseChild(accounts, id).Some?
    ensures var after := CloseChild(accounts, id).value;
      Ledger(after) && AccountsKept(accounts, after) && (BudgetsOk(accounts) ==> BudgetsOk(after))
  {
    if accounts[id].active {
      var p, spent := accounts[id].parent.value, CommittedOf(accounts[id].groups);
      var charged := Commit(accounts, p, Allocation(id), spent, true).value;
      CommitExact(accounts, p, Allocation(id), spent, true);
      if BudgetsOk(accounts) { ChargeFits(accounts, id); }
      Deactivate(charged, id);
    }
  }

  lemma Deactivate(accounts: Accounts, id: string)
    requires Ledger(accounts) && id in accounts
    ensures var after := accounts[id := accounts[id].(active := false)];
      Ledger(after) && AccountsKept(accounts, after) && (BudgetsOk(accounts) ==> BudgetsOk(after))
  {
    var after := accounts[id := accounts[id].(active := false)];
    forall k | k in after ensures Allocated(after, k) { assert Allocated(accounts, k); }
    assert BudgetsOk(accounts) ==> WithinLimits(accounts[id]);
  }

  // ---------------------------------------------------------------- new accounts

  ghost predicate NonNegative(limits: Quantities) {
    forall r :: r in limits ==> limits[r] >= 0
  }

  lemma NewWithinLimits(limits: Quantities, run: string, parent: Option<string>)
    requires NonNegative(limits)
    ensures WithinLimits(NewAccount(limits, run, parent))
  {
    assert forall r :: Used([], r) == 0;
  }

  /** Opening an account whose allocation, if it needs one, stands in its parent. */
  lemma OpenKeeps(accounts: Accounts, id: string, a: Account)
    requires Ledger(accounts) && id !in accounts && a.groups == []
    requires a.parent.Some? && a.limits != map[] ==>
      var p := a.parent.value; var i := GroupOf(accounts, p, Allocation(id));
      i >= 0 && accounts[p].groups[i].amounts == a.limits
    ensures var after := accounts[id := a];
      Ledger(after) && AccountsKept(accounts, after) && (BudgetsOk(accounts) && WithinLimits(a) ==> BudgetsOk(after))
  {
    var after := accounts[id := a];
    forall k | k in after ensures Allocated(after, k) {
      if k != id { assert Allocated(accounts, k); }
    }
  }

  /** Opening a child whose limits are reserved for the first time: what remains of the parent covers them. */
  lemma OpenReserved(accounts: Accounts, id: string, p: string, child: Account)
    requires Ledger(accounts) && id !in accounts && p in accounts && GroupOf(accounts, p, Allocation(id)) < 0
    requires child.groups == [] && child.parent == Some(p) && WithinLimits(child)
    requires Affords(accounts[p], child.limits)
    ensures var g := Group(Allocation(id), child.limits, map[], Reserved, Some(id));
      var after := accounts[p := accounts[p].(groups := accounts[p].groups + [g])][id := child];
      Ledger(after) && AccountsKept(accounts, after) && (BudgetsOk(accounts) ==> BudgetsOk(after))
  {
    var a, g := accounts[p], Group(Allocation(id), child.limits, map[], Reserved, Some(id));
    var reserved := accounts[p := a.(groups := a.groups + [g])];
    assert SaneGroup(g);
    AddGroup(accounts, p, g);
    FindAppend(a.groups, g, Allocation(id));
    if BudgetsOk(accounts) { AddGroupBudgets(accounts, p, g); }
    OpenKeeps(reserved, id, child);
  }

  /** Opening a child and reserving its limits. */
  lemma OpenChildKeeps(accounts: Accounts, id: string, run: string, p: string, limits: Quantities)
    requires Ledger(accounts) && id !in accounts && p in accounts && limits != map[]
    requires Reserve(accounts[id := NewAccount(limits, run, Some(p))], p, Allocation(id), limits, Some(id)).Some?
    ensures var after := Reserve(accounts[id := NewAccount(limits, run, Some(p))], p, Allocation(id), limits, Some(id)).value;
      && Ledger(after) && AccountsKept(accounts, after)
      && id in after && SameAccount(after[id], NewAccount(limits, run, Some(p)))
      && (BudgetsOk(accounts) ==> BudgetsOk(after))
  {
    var a, child := accounts[p], NewAccount(limits, run, Some(p));
    var after := Reserve(accounts[id := child], p, Allocation(id), limits, Some(id)).value;
    assert NonNegative(limits);
    NewWithinLimits(limits, run, Some(p));
    if GroupOf(accounts, p, Allocation(id)) >= 0 {
      assert after == accounts[id := child];
      OpenKeeps(accounts, id, child);
    } else {
      OpenReserved(accounts, id, p, child);
      var g := Group(Allocation(id), limits, map[], Reserved, Some(id));
      assert after == accounts[p := a.(groups := a.groups + [g])][id := child];
    }
  }

  /** Creating an account never breaks a limit. */
  lemma CreateKeeps(accounts: Accounts, id: string, run: string, parent: Option<string>, limits: Quantities)
    requires Ledger(accounts) && Create(accounts, id, run, parent, limits).Some?
    ensures var after := Create(accounts, id, run, parent, limits).value;
      && Ledger(after) && AccountsKept(accounts, after)
      && id in after && SameAccount(after[id], NewAccount(limits, run, parent))
      && (BudgetsOk(accounts) && (parent.None? ==> NonNegative(limits)) ==> BudgetsOk(after))
  {
    if id !in accounts {
      if parent.None? || limits == map[] {
        OpenKeeps(accounts, id, NewAccount(limits, run, parent));
        if NonNegative(limits) { NewWithinLimits(limits, run, parent); }
      } else {
        OpenChildKeeps(accounts, id, run, parent.value, limits);
      }
    }
  }

  /** The same without a sound ledger: no account is lost. */
  lemma CreateKeepsRows(accounts: Accounts, id: string, run: string, parent: Option<string>, limits: Quantities)
    requires Create(accounts, id, run, parent, limits).Some?
    ensures var after := Create(accounts, id, run, parent, limits).value;
      AccountsKept(accounts, after) && id in after && SameAccount(after[id], NewAccount(limits, run, parent))
  {
  }

  lemma CommitKeepsRows(accounts: Accounts, id: string, group: string, consumed: Quantities, overrun: bool)
    requires Commit(accounts, id, group, consumed, overrun).Some?
    ensures AccountsKept(accounts, Commit(accounts, id, group, consumed, overrun).value)
  {
  }

  lemma ReserveKeepsRows(accounts: Accounts, id: string, group: string, quantities: Quantities, child: Option<string>)
    requires Reserve(accounts, id, group, quantities, child).Some?
    ensures AccountsKept(accounts, Reserve(accounts, id, group, quantities, child).value)
  {
  }

  lemma ReleaseKeepsRows(accounts: Accounts, id: string, group: string)
    requires Release(accounts, id, group).Some?
    ensures AccountsKept(accounts, Release(accounts, id, group).value)
  {
  }

  lemma CloseKeepsRows(accounts: Accounts, id: string)
    requires CloseChild(accounts, id).Some?
    ensures AccountsKept(accounts, CloseChild(accounts, id).value)
  {
    if accounts[id].active {
      CommitKeepsRows(accounts, accounts[id].parent.value, Allocation(id), CommittedOf(accounts[id].groups), true);
    }
  }

  /** An overrun: a commit that its provider reports beyond reservation and limit. */
  lemma CommitMayOverrun() returns (accounts: Accounts, consumed: Quantities)
    ensures Ledger(accounts) && BudgetsOk(accounts)
    ensures Commit(accounts, "a", "g", consumed, true).Some? && !BudgetsOk(Commit(accounts, "a", "g", consumed, true).value)
  {
    var g := Group("g", map["tokens" := 5], map[], Reserved, None);
    var a := Account(map["tokens" := 10], None, None, [g], true);
    accounts, consumed := map["a" := a], map["tokens" := 11];
    forall r ensures Used([g], r) == Held(g, r) { UsedAppend([], g, r); }
    assert WithinLimits(a);
    assert GroupOf(accounts, "a", "g") == 0;
    CommitExact(accounts, "a", "g", consumed, true);
    assert Used([g], "tokens") == 5 && Remaining(a, "tokens") == 5;
  }
}
