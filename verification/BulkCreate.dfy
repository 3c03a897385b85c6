/**
 Bulk creation of accounts: defaults for every builder, then a chain of mutators whose last link issues the
 one batch insert.  Builders carry no hooks; the same builder may appear more than once.
 */
module BulkCreate {
  import opened Wrappers

  datatype Fields = Fields(
    id: Option<string>, createdAt: Option<int>, updatedAt: Option<int>, ownerUserId: Option<string>,
    sub2apiUserId: Option<int>, name: Option<string>, status: Option<string>, purchaseEnabled: Option<bool>)

  datatype Defaults = Defaults(name: string, status: string, purchaseEnabled: bool)
  datatype Clock = Clock(createdAt: int, updatedAt: int)
  // A validator gives the text of its error.
  datatype Validators = Validators(owner: string -> Option<string>, sub2api: int -> Option<string>,
    id: string -> Option<string>)

  function OrElse<T>(o: Option<T>, v: T): Option<T> { if o.Some? then o else Some(v) }

  function Defaulted(f: Fields, c: Clock, d: Defaults): Fields {
    f.(createdAt := OrElse(f.createdAt, c.createdAt), updatedAt := OrElse(f.updatedAt, c.updatedAt),
       name := OrElse(f.name, d.name), status := OrElse(f.status, d.status),
       purchaseEnabled := OrElse(f.purchaseEnabled, d.purchaseEnabled))
  }

  // check(): the first error, in the order the fields are looked at.
  function CheckError(f: Fields, v: Validators): Option<string> {
    if f.createdAt.None? then Some("created_at")
    else if f.updatedAt.None? then Some("updated_at")
    else if f.ownerUserId.None? then Some("owner_user_id")
    else if v.owner(f.ownerUserId.value).Some? then Some("owner_user_id: " + v.owner(f.ownerUserId.value).value)
    else if f.sub2apiUserId.None? then Some("sub2api_user_id")
    else if v.sub2api(f.sub2apiUserId.value).Some? then
      Some("sub2api_user_id: " + v.sub2api(f.sub2apiUserId.value).value)
    else if f.name.None? then Some("name")
    else if f.status.None? then Some("status")
    else if f.purchaseEnabled.None? then Some("workspace_purchase_enabled")
    else if f.id.Some? && v.id(f.id.value).Some? then Some("id: " + v.id(f.id.value).value)
    else None
  }

  /** A mutation passes the check exactly when every field is set and every validated one is valid. */
  lemma {:induction false} CheckErrorIff(f: Fields, v: Validators)
    ensures CheckError(f, v).None? <==>
      && f.createdAt.Some? && f.updatedAt.Some? && f.name.Some? && f.status.Some? && f.purchaseEnabled.Some?
      && f.ownerUserId.Some? && v.owner(f.ownerUserId.value).None?
      && f.sub2apiUserId.Some? && v.sub2api(f.sub2apiUserId.value).None?
      && (f.id.Some? ==> v.id(f.id.value).None?)
  {
  }

  // The fields in the order they are looked at, and what is wrong with the i-th.
  const CHECKED := [
    "created_at", "updated_at", "owner_user_id", "sub2api_user_id", "name", "status", "workspace_purchase_enabled",
    "id"]

  predicate Wrong(f: Fields, v: Validators, i: nat) {
    match i
    case 0 => f.createdAt == None
    case 1 => f.updatedAt == None
    case 2 => f.ownerUserId == None || v.owner(f.ownerUserId.value).Some?
    case 3 => f.sub2apiUserId == None || v.sub2api(f.sub2apiUserId.value).Some?
    case 4 => f.name == None
    case 5 => f.status == None
    case 6 => f.purchaseEnabled == None
    case _ => f.id.Some? && v.id(f.id.value).Some?
  }

  ghost predicate FirstWrongAt(f: Fields, v: Validators, i: nat) {
    i < |CHECKED| && Wrong(f, v, i) && forall j: nat :: j < i ==> !Wrong(f, v, j)
  }

  /** The error is that of the first field something is wrong with, by name. */
  lemma {:induction false} FirstWrong(f: Fields, v: Validators)
    requires CheckError(f, v).Some?
    ensures exists i: nat :: FirstWrongAt(f, v, i) && CHECKED[i] <= CheckError(f, v).value
  {
    var i: nat := if Wrong(f, v, 0) then 0 else if Wrong(f, v, 1) then 1 else if Wrong(f, v, 2) then 2
      else if Wrong(f, v, 3) then 3 else if Wrong(f, v, 4) then 4 else if Wrong(f, v, 5) then 5
      else if Wrong(f, v, 6) then 6 else 7;
    assert CHECKED[0] == "created_at" && CHECKED[1] == "updated_at" && CHECKED[2] == "owner_user_id"
      && CHECKED[3] == "sub2api_user_id" && CHECKED[4] == "name" && CHECKED[5] == "status"
      && CHECKED[6] == "workspace_purchase_enabled" && CHECKED[7] == "id";
    assert FirstWrongAt(f, v, i) && CHECKED[i] <= CheckError(f, v).value;
  }

  // The field keeps its value if it has one, and otherwise has the default.
  predicate Filled<T(==)>(was: Option<T>, now: Option<T>, preset: T) {
    now.Some? && (if was.Some? then now == was else now.value == preset)
  }

  /** Defaults fill exactly the five defaulted fields, each with its own default, and only where nothing was set. */
  lemma {:induction false} DefaultsFill(f: Fields, c: Clock, d: Defaults)
    ensures var g := Defaulted(f, c, d);
      && Filled(f.createdAt, g.createdAt, c.createdAt) && Filled(f.updatedAt, g.updatedAt, c.updatedAt)
      && Filled(f.name, g.name, d.name) && Filled(f.status, g.status, d.status)
      && Filled(f.purchaseEnabled, g.purchaseEnabled, d.purchaseEnabled)
      && g.id == f.id && g.ownerUserId == f.ownerUserId && g.sub2apiUserId == f.sub2apiUserId
  {
  }

  /** After defaults only the owner, the Sub2API user and a given id can fail the check. */
  lemma {:induction false} DefaultedCheckIff(f: Fields, c: Clock, d: Defaults, v: Validators)
    ensures CheckError(Defaulted(f, c, d), v).None? <==>
      && f.ownerUserId.Some? && v.owner(f.ownerUserId.value).None?
      && f.sub2apiUserId.Some? && v.sub2api(f.sub2apiUserId.value).None?
      && (f.id.Some? ==> v.id(f.id.value).None?)
    ensures forall later: Clock :: Defaulted(Defaulted(f, c, d), later, d) == Defaulted(f, c, d)
  {
  }

  datatype Value = Time(time: int) | Text(text: string) | Int64(number: int) | Bool(flag: bool)
  datatype Column = CreatedAt | UpdatedAt | OwnerUserId | Sub2apiUserId | Name | Status | PurchaseEnabled
  datatype Spec = Spec(id: Option<string>, columns: map<Column, Value>)
  datatype Account = Account(
    id: string, createdAt: int, updatedAt: int, ownerUserId: string, sub2apiUserId: int,
    name: string, status: string, purchaseEnabled: bool)

  function Get<T>(o: Option<T>, zero: T): T { if o.Some? then o.value else zero }

  function NodeOf(f: Fields): Account {
    Account(Get(f.id, ""), Get(f.createdAt, 0), Get(f.updatedAt, 0), Get(f.ownerUserId, ""), Get(f.sub2apiUserId, 0),
            Get(f.name, ""), Get(f.status, ""), Get(f.purchaseEnabled, false))
  }

  type Row = map<Column, Value>

  function PutTime(m: Row, c: Column, o: Option<int>): Row { if o.Some? then m[c := Time(o.value)] else m }
  function PutText(m: Row, c: Column, o: Option<string>): Row { if o.Some? then m[c := Text(o.value)] else m }
  function PutNumber(m: Row, c: Column, o: Option<int>): Row { if o.Some? then m[c := Int64(o.value)] else m }
  function PutFlag(m: Row, c: Column, o: Option<bool>): Row { if o.Some? then m[c := Bool(o.value)] else m }

  function Times(f: Fields): Row { PutTime(PutTime(map[], CreatedAt, f.createdAt), UpdatedAt, f.updatedAt) }
  function Users(f: Fields): Row {
    PutNumber(PutText(Times(f), OwnerUserId, f.ownerUserId), Sub2apiUserId, f.sub2apiUserId)
  }
  function Labels(f: Fields): Row { PutText(PutText(Users(f), Name, f.name), Status, f.status) }

  function SpecOf(f: Fields): Spec { Spec(f.id, PutFlag(Labels(f), PurchaseEnabled, f.purchaseEnabled)) }

  // What a row inserted from the spec holds.
  function RowFields(s: Spec): Fields {
    Fields(s.id, TimeIn(s, CreatedAt), TimeIn(s, UpdatedAt), TextIn(s, OwnerUserId), NumberIn(s, Sub2apiUserId),
           TextIn(s, Name), TextIn(s, Status), FlagIn(s, PurchaseEnabled))
  }

  function TimeIn(s: Spec, c: Column): Option<int> {
    if c in s.columns && s.columns[c].Time? then Some(s.columns[c].time) else None
  }
  function TextIn(s: Spec, c: Column): Option<string> {
    if c in s.columns && s.columns[c].Text? then Some(s.columns[c].text) else None
  }
  function NumberIn(s: Spec, c: Column): Option<int> {
    if c in s.columns && s.columns[c].Int64? then Some(s.columns[c].number) else None
  }
  function FlagIn(s: Spec, c: Column): Option<bool> {
    if c in s.columns && s.columns[c].Bool? then Some(s.columns[c].flag) else None
  }

  /** The insert carries every field of the mutation under its own column: the row gives the fields back. */
  lemma {:induction false} SpecRoundTrip(f: Fields)
    ensures RowFields(SpecOf(f)) == f
  {
    TimesHeld(f);
    UsersHeld(f);
    LabelsHeld(f);
    var s, labels := SpecOf(f), Spec(f.id, Labels(f));
    assert SameColumns(s.columns, Labels(f), {CreatedAt, UpdatedAt, OwnerUserId, Sub2apiUserId, Name, Status});
    assert FlagIn(s, PurchaseEnabled) == f.purchaseEnabled;
  }

  ghost predicate SameColumns(m: Row, n: Row, columns: set<Column>) {
    forall c :: c in columns ==> (c in m <==> c in n) && (c in m ==> m[c] == n[c])
  }

  lemma {:induction false} TimesHeld(f: Fields)
    ensures var s := Spec(f.id, Times(f)); TimeIn(s, CreatedAt) == f.createdAt && TimeIn(s, UpdatedAt) == f.updatedAt
    ensures Times(f).Keys <= {CreatedAt, UpdatedAt}
  {
  }

  lemma {:induction false} UsersHeld(f: Fields)
    ensures var s := Spec(f.id, Users(f));
      TextIn(s, OwnerUserId) == f.ownerUserId && NumberIn(s, Sub2apiUserId) == f.sub2apiUserId
    ensures SameColumns(Users(f), Times(f), {CreatedAt, UpdatedAt})
      && Users(f).Keys <= Times(f).Keys + {OwnerUserId, Sub2apiUserId}
  {
    TimesHeld(f);
  }

  lemma {:induction false} LabelsHeld(f: Fields)
    ensures var s := Spec(f.id, Labels(f)); TextIn(s, Name) == f.name && TextIn(s, Status) == f.status
    ensures SameColumns(Labels(f), Users(f), {CreatedAt, UpdatedAt, OwnerUserId, Sub2apiUserId})
    ensures Labels(f).Keys <= {CreatedAt, UpdatedAt, OwnerUserId, Sub2apiUserId, Name, Status}
  {
    TimesHeld(f);
    UsersHeld(f);
  }

  class AccountMutation {
    var id: Option<string>
    var createdAt: Option<int>
    var updatedAt: Option<int>
    var ownerUserId: Option<string>
    var sub2apiUserId: Option<int>
    var name: Option<string>
    var status: Option<string>
    var purchaseEnabled: Option<bool>
    var done: bool

    function Now(): Fields
      reads this
    {
      Fields(id, createdAt, updatedAt, ownerUserId, sub2apiUserId, name, status, purchaseEnabled)
    }

    method SetDefaults(c: Clock, d: Defaults)
      modifies this
      ensures Now() == Defaulted(old(Now()), c, d) && done == old(done)
    {
      if createdAt.None? { createdAt := Some(c.createdAt); }
      if updatedAt.None? { updatedAt := Some(c.updatedAt); }
      if name.None? { name := Some(d.name); }
      if status.None? { status := Some(d.status); }
      if purchaseEnabled.None? { purchaseEnabled := Some(d.purchaseEnabled); }
    }

    method CreateSpec() returns (node: Account, spec: Spec)
      ensures node == NodeOf(Now()) && spec == SpecOf(Now())
    {
      node := CreateNode();
      var columns := SetFields();
      spec := Spec(id, columns);
    }

    // The half of createSpec that fills the entity, each field starting from its zero value.
    method CreateNode() returns (node: Account)
      ensures node == NodeOf(Now())
    {
      var nodeId, owner, title, state := "", "", "", "";
      var created, updated, user := 0, 0, 0;
      var enabled := false;
      if id.Some? { nodeId := id.value; }
      if createdAt.Some? { created := createdAt.value; }
      if updatedAt.Some? { updated := updatedAt.value; }
      if ownerUserId.Some? { owner := ownerUserId.value; }
      if sub2apiUserId.Some? { user := sub2apiUserId.value; }
      if name.Some? { title := name.value; }
      if status.Some? { state := status.value; }
      if purchaseEnabled.Some? { enabled := purchaseEnabled.value; }
      node := Account(nodeId, created, updated, owner, user, title, state, enabled);
    }

    // The half that fills the columns of the insert.
    method SetFields() returns (columns: Row)
      ensures columns == SpecOf(Now()).columns
    {
      columns := map[];
      if createdAt.Some? { columns := columns[CreatedAt := Time(createdAt.value)]; }
      if updatedAt.Some? { columns := columns[UpdatedAt := Time(updatedAt.value)]; }
      assert columns == Times(Now());
      if ownerUserId.Some? { columns := columns[OwnerUserId := Text(ownerUserId.value)]; }
      if sub2apiUserId.Some? { columns := columns[Sub2apiUserId := Int64(sub2apiUserId.value)]; }
      assert columns == Users(Now());
      if name.Some? { columns := columns[Name := Text(name.value)]; }
      if status.Some? { columns := columns[Status := Text(status.value)]; }
      if purchaseEnabled.Some? { columns := columns[PurchaseEnabled := Bool(purchaseEnabled.value)]; }
    }
  }

  // The first check error from builder i on.
  function FirstError(prepared: seq<Fields>, i: nat, v: Validators): Option<string>
    requires i <= |prepared|
    decreases |prepared| - i
  {
    if i == |prepared| then None
    else if CheckError(prepared[i], v).Some? then CheckError(prepared[i], v)
    else FirstError(prepared, i + 1, v)
  }

  lemma {:induction false} NoErrorIff(prepared: seq<Fields>, i: nat, v: Validators)
    requires i <= |prepared|
    ensures FirstError(prepared, i, v).None? <==> forall k :: i <= k < |prepared| ==> CheckError(prepared[k], v).None?
    decreases |prepared| - i
  {
    if i < |prepared| { NoErrorIff(prepared, i + 1, v); }
  }

  function Specs(prepared: seq<Fields>): seq<Spec> {
    seq(|prepared|, k requires 0 <= k < |prepared| => SpecOf(prepared[k]))
  }
  function Nodes(prepared: seq<Fields>): seq<Account> {
    seq(|prepared|, k requires 0 <= k < |prepared| => NodeOf(prepared[k]))
  }

  function Marked(f: Fields): Fields { f.(id := Some(NodeOf(f).id)) }

  // Where a builder first appears.
  ghost function First(builders: seq<AccountMutation>, m: AccountMutation): (j: nat)
    ensures j <= |builders|
    ensures j < |builders| ==> builders[j] == m
    ensures forall k :: 0 <= k < j ==> builders[k] != m
  {
    if builders == [] || builders[0] == m then 0 else 1 + First(builders[1..], m)
  }

  ghost predicate Holds(builders: seq<AccountMutation>, prepared: seq<Fields>)
    reads builders
  {
    |prepared| == |builders| && forall k :: 0 <= k < |builders| ==> builders[k].Now() == prepared[k]
  }

  // Every builder is as prepared, or carries its id and is done.
  ghost predicate HoldsOrDone(builders: seq<AccountMutation>, prepared: seq<Fields>, from: nat)
    reads builders
  {
    && |prepared| == |builders|
    && (forall k :: 0 <= k < |builders| ==>
      builders[k].Now() == prepared[k] || builders[k].Now() == Marked(prepared[k]))
    && (forall k :: from <= k < |builders| ==> builders[k].Now() == Marked(prepared[k]) && builders[k].done)
  }

  /** Mutator i of the chain: its own check and spec, then the rest of the chain or the insert, then its mark. */
  method Mutate(builders: seq<AccountMutation>, i: nat, specs: array<Spec>, nodes: array<Account>, v: Validators,
                batch: seq<Spec> -> Option<string>, ghost prepared: seq<Fields>)
    returns (err: Option<string>, inserts: seq<seq<Spec>>)
    requires i < |builders| == specs.Length == nodes.Length && Holds(builders, prepared)
    requires specs[..i] == Specs(prepared)[..i] && nodes[..i] == Nodes(prepared)[..i]
    modifies specs, nodes, set m | m in builders
    ensures FirstError(prepared, i, v).Some? ==> err == FirstError(prepared, i, v) && inserts == []
    ensures FirstError(prepared, i, v).None? ==> err == batch(Specs(prepared)) && inserts == [Specs(prepared)]
    ensures err.Some? ==> Holds(builders, prepared) && forall m :: m in builders ==> m.done == old(m.done)
    ensures err.None? ==> nodes[..] == Nodes(prepared) && HoldsOrDone(builders, prepared, i)
    decreases |builders| - i
  {
    var builder := builders[i];
    err := CheckNow(builder, v);
    if err.Some? { return err, []; }
    FillSlot(builder, i, specs, nodes, prepared);
    if i < |builders| - 1 {
      err, inserts := Mutate(builders, i + 1, specs, nodes, v, batch, prepared);
    } else {
      assert specs[..] == specs[..i + 1] && nodes[..] == nodes[..i + 1];
      assert Specs(prepared)[..i + 1] == Specs(prepared) && Nodes(prepared)[..i + 1] == Nodes(prepared);
      inserts := [specs[..]];
      err := batch(specs[..]);
    }
    if err.Some? { return; }
    assert nodes[..][i] == NodeOf(prepared[i]);
    Mark(builders, i, nodes[i].id, prepared);
  }

  method FillSlot(
    builder: AccountMutation, i: nat, specs: array<Spec>, nodes: array<Account>, ghost prepared: seq<Fields>)
    requires i < |prepared| == specs.Length == nodes.Length && builder.Now() == prepared[i]
    requires specs[..i] == Specs(prepared)[..i] && nodes[..i] == Nodes(prepared)[..i]
    modifies specs, nodes
    ensures specs[..i + 1] == Specs(prepared)[..i + 1] && nodes[..i + 1] == Nodes(prepared)[..i + 1]
  {
    var node, spec := builder.CreateSpec();
    nodes[i], specs[i] := node, spec;
    assert specs[..i + 1] == specs[..i] + [spec] && nodes[..i + 1] == nodes[..i] + [node];
    assert Specs(prepared)[..i + 1] == Specs(prepared)[..i] + [SpecOf(prepared[i])];
    assert Nodes(prepared)[..i + 1] == Nodes(prepared)[..i] + [NodeOf(prepared[i])];
  }

  method Mark(builders: seq<AccountMutation>, i: nat, id: string, ghost prepared: seq<Fields>)
    requires i < |builders| && HoldsOrDone(builders, prepared, i + 1) && id == NodeOf(prepared[i]).id
    modifies builders[i]
    ensures HoldsOrDone(builders, prepared, i)
  {
    builders[i].id := Some(id);
    builders[i].done := true;
  }

  method CheckNow(m: AccountMutation, v: Validators) returns (err: Option<string>)
    ensures err == CheckError(m.Now(), v)
  {
    if m.createdAt.None? { return Some("created_at"); }
    if m.updatedAt.None? { return Some("updated_at"); }
    if m.ownerUserId.None? { return Some("owner_user_id"); }
    if v.owner(m.ownerUserId.value).Some? { return Some("owner_user_id: " + v.owner(m.ownerUserId.value).value); }
    if m.sub2apiUserId.None? { return Some("sub2api_user_id"); }
    if v.sub2api(m.sub2apiUserId.value).Some? {
      return Some("sub2api_user_id: " + v.sub2api(m.sub2apiUserId.value).value);
    }
    if m.name.None? { return Some("name"); }
    if m.status.None? { return Some("status"); }
    if m.purchaseEnabled.None? { return Some("workspace_purchase_enabled"); }
    if m.id.Some? && v.id(m.id.value).Some? { return Some("id: " + v.id(m.id.value).value); }
    return None;
  }

  // What builder k holds once the first n builders have had their defaults.
  ghost function PreparedField(
    builders: seq<AccountMutation>, before: seq<Fields>, k: nat, n: nat, clock: nat -> Clock, d: Defaults): Fields
    requires |before| == |builders| && k < |builders|
  {
    var j := First(builders, builders[k]);
    if j < n then Defaulted(before[k], clock(j), d) else before[k]
  }

  method DefaultAll(builders: seq<AccountMutation>, clock: nat -> Clock, d: Defaults, ghost before: seq<Fields>)
    requires Holds(builders, before)
    modifies set m | m in builders
    ensures forall k :: 0 <= k < |builders| ==>
      builders[k].Now() == PreparedField(builders, before, k, |builders|, clock, d)
    ensures forall m :: m in builders ==> m.done == old(m.done)
  {
    for i := 0 to |builders|
      invariant forall k :: 0 <= k < |builders| ==> builders[k].Now() == PreparedField(builders, before, k, i, clock, d)
      invariant forall m :: m in builders ==> m.done == old(m.done)
    {
      label step:
      builders[i].SetDefaults(clock(i), d);
      forall k | 0 <= k < |builders| ensures builders[k].Now() == PreparedField(builders, before, k, i + 1, clock, d) {
        DefaultsStep(builders, before, k, i, clock, d);
        assert old@step(builders[k].Now()) == PreparedField(builders, before, k, i, clock, d);
      }
    }
  }

  // Going one builder further changes exactly that builder, wherever it appears.
  ghost predicate PreparedStep(
    builders: seq<AccountMutation>, before: seq<Fields>, k: nat, i: nat, clock: nat -> Clock, d: Defaults)
    requires |before| == |builders| && k < |builders| && i < |builders|
  {
    PreparedField(builders, before, k, i + 1, clock, d)
      == if builders[k] == builders[i] then Defaulted(PreparedField(builders, before, k, i, clock, d), clock(i), d)
         else PreparedField(builders, before, k, i, clock, d)
  }

  lemma {:induction false} DefaultsStep(
    builders: seq<AccountMutation>, before: seq<Fields>, k: nat, i: nat, clock: nat -> Clock, d: Defaults)
    requires |before| == |builders| && k < |builders| && i < |builders|
    ensures PreparedStep(builders, before, k, i, clock, d)
  {
    var j := First(builders, builders[k]);
    if builders[k] == builders[i] {
      assert j <= i;
    }
    assert j == i ==> builders[k] == builders[i];
  }

  ghost predicate Outcome(
    prepared: seq<Fields>, v: Validators, batch: seq<Spec> -> Option<string>,
    r: Result<seq<Account>, string>, inserts: seq<seq<Spec>>)
  {
    if prepared == [] then r == Ok([]) && inserts == []
    else if FirstError(prepared, 0, v).Some? then r == Err(FirstError(prepared, 0, v).value) && inserts == []
    else
      && inserts == [Specs(prepared)]
      && r == (match batch(Specs(prepared)) case Some(error) => Err(error) case None => Ok(Nodes(prepared)))
  }

  /**
   AccountCreateBulk.Save: the insert goes out once, with spec i built from builder i, exactly when every check
   after defaults passes; a mutation is marked done only if that insert succeeded.
   */
  method Save(buildErr: Option<string>, builders: seq<AccountMutation>, clock: nat -> Clock, d: Defaults, v: Validators,
              batch: seq<Spec> -> Option<string>, ghost before: seq<Fields>)
    returns (r: Result<seq<Account>, string>, inserts: seq<seq<Spec>>)
    requires Holds(builders, before)
    modifies set m | m in builders
    ensures buildErr.Some? ==> r == Err(buildErr.value) && inserts == [] && Holds(builders, before)
    ensures buildErr.None? ==> Outcome(AllPrepared(builders, before, clock, d), v, batch, r, inserts)
    ensures r.Err? ==> forall m :: m in builders ==> m.done == old(m.done)
    ensures buildErr.None? && r.Err? ==> Holds(builders, AllPrepared(builders, before, clock, d))
    ensures r.Ok? ==> HoldsOrDone(builders, AllPrepared(builders, before, clock, d), 0)
  {
    if buildErr.Some? { return Err(buildErr.value), []; }
    DefaultAll(builders, clock, d, before);
    ghost var prepared := AllPrepared(builders, before, clock, d);
    var specs := new Spec[|builders|](_ => Spec(None, map[]));
    var nodes := new Account[|builders|](_ => Account("", 0, 0, "", 0, "", "", false));
    inserts := [];
    if |builders| > 0 {
      var err;
      err, inserts := Mutate(builders, 0, specs, nodes, v, batch, prepared);
      if err.Some? { return Err(err.value), inserts; }
    }
    assert builders == [] ==> nodes[..] == [];
    return Ok(nodes[..]), inserts;
  }

  ghost function AllPrepared(
    builders: seq<AccountMutation>, before: seq<Fields>, clock: nat -> Clock, d: Defaults): seq<Fields>
    requires |before| == |builders|
  {
    seq(|builders|, k requires 0 <= k < |builders| => PreparedField(builders, before, k, |builders|, clock, d))
  }

  /**
   So the insert is issued exactly when there is a builder and every builder names a valid owner, Sub2API user
   and id.
   */
  lemma {:induction false} InsertIff(
    builders: seq<AccountMutation>, before: seq<Fields>, clock: nat -> Clock, d: Defaults, v: Validators,
    batch: seq<Spec> -> Option<string>, r: Result<seq<Account>, string>, inserts: seq<seq<Spec>>)
    requires |before| == |builders| && Outcome(AllPrepared(builders, before, clock, d), v, batch, r, inserts)
    ensures |inserts| <= 1
    ensures inserts != [] <==> builders != [] && forall k :: 0 <= k < |before| ==> Creatable(before[k], v)
    ensures inserts != [] ==>
      |inserts[0]| == |builders| && forall k :: 0 <= k < |builders| ==>
        RowFields(inserts[0][k]) == AllPrepared(builders, before, clock, d)[k]
  {
    var prepared := AllPrepared(builders, before, clock, d);
    NoErrorIff(prepared, 0, v);
    forall k | 0 <= k < |before| ensures CheckError(prepared[k], v).None? <==> Creatable(before[k], v) {
      assert First(builders, builders[k]) < |builders|;
      DefaultedCheckIff(before[k], clock(First(builders, builders[k])), d, v);
    }
    if inserts != [] {
      forall k | 0 <= k < |builders| ensures RowFields(inserts[0][k]) == prepared[k] {
        SpecRoundTrip(prepared[k]);
      }
    }
  }

  // The account has exactly the values of the inserted row, column by column.
  predicate IsRow(a: Account, row: Spec) {
    && a.id == Get(row.id, "")
    && row.columns == map[
        CreatedAt := Time(a.createdAt), UpdatedAt := Time(a.updatedAt), OwnerUserId := Text(a.ownerUserId),
        Sub2apiUserId := Int64(a.sub2apiUserId), Name := Text(a.name), Status := Text(a.status),
        PurchaseEnabled := Bool(a.purchaseEnabled)]
  }

  lemma {:induction false} NodeIsRow(f: Fields, v: Validators)
    requires CheckError(f, v).None?
    ensures IsRow(NodeOf(f), SpecOf(f))
  {
    CheckErrorIff(f, v);
  }

  /** Every account returned has exactly the values of the row inserted for its builder. */
  lemma {:induction false} AccountsAreRows(
    prepared: seq<Fields>, v: Validators, batch: seq<Spec> -> Option<string>,
    r: Result<seq<Account>, string>, inserts: seq<seq<Spec>>)
    requires Outcome(prepared, v, batch, r, inserts) && r.Ok?
    ensures |r.value| == |prepared|
    ensures prepared != [] ==>
      && |inserts| == 1 && |inserts[0]| == |prepared|
      && forall k :: 0 <= k < |prepared| ==> IsRow(r.value[k], inserts[0][k])
  {
    NoErrorIff(prepared, 0, v);
    forall k | 0 <= k < |prepared| && prepared != [] ensures IsRow(NodeOf(prepared[k]), SpecOf(prepared[k])) {
      NodeIsRow(prepared[k], v);
    }
  }

  predicate Creatable(f: Fields, v: Validators) {
    && f.ownerUserId.Some? && v.owner(f.ownerUserId.value).None?
    && f.sub2apiUserId.Some? && v.sub2api(f.sub2apiUserId.value).None?
    && (f.id.Some? ==> v.id(f.id.value).None?)
  }
}
