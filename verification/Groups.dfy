/** SCIM groups (internal/scim/handler.go): what a PATCH makes of a membership, written to the
    store as the difference only, and PATCHes that run side by side. */
module Groups {
  import opened Accounts
  import opened Basics
  import opened ScimUser

  datatype Rejection = InvalidPath | UnknownGroup | InvalidMember | NameTaken

  datatype Reply = Answered(members: seq<string>) | Rejected(why: Rejection)

  /** What one part of a PATCH means for the set of members. */
  datatype Action = AddAll(ids: set<string>) | RemoveAll(ids: set<string>) | Clear | ReplaceAll(ids: set<string>)

  datatype Plan = Plan(actions: seq<Action>) | Invalid

  datatype GroupRow = GroupRow(displayName: string, externalId: string)

  datatype StoreWrite =
    | UpdateGroup(group: string, row: GroupRow)
    | RemoveMember(group: string, id: string)
    | AddMember(group: string, id: string)

  // ----- the meaning of a PATCH -----

  function MemberValues(value: Value): seq<string> {
    if value.List? then ItemValues(value.items) else []
  }

  function ItemValues(items: seq<Value>): seq<string> {
    if items == [] then []
    else
      var rest := ItemValues(items[1..]);
      if items[0].Object? && TextAt(items[0].fields, "value").Some? && TextAt(items[0].fields, "value").value != ""
      then [TextAt(items[0].fields, "value").value] + rest
      else rest
  }

  function Members(ids: seq<string>): set<string> {
    set id | id in ids
  }

  function ActionOf(kind: Kind, value: Value): Action {
    match kind
    case Add => AddAll(Members(MemberValues(value)))
    case Remove => if value.Null? then Clear else RemoveAll(Members(MemberValues(value)))
    case Replace => ReplaceAll(Members(MemberValues(value)))
  }

  function Perform(members: set<string>, action: Action): set<string> {
    match action
    case AddAll(ids) => members + ids
    case RemoveAll(ids) => members - ids
    case Clear => {}
    case ReplaceAll(ids) => ids
  }

  function PerformAll(members: set<string>, actions: seq<Action>): set<string>
    decreases |actions|
  {
    if actions == [] then members else PerformAll(Perform(members, actions[0]), actions[1..])
  }

  predicate Mentions(key: string) {
    exists i :: 0 <= i < |key| && "members" <= key[i..]
  }

  /** A member sub-attribute or filter hidden in a key of a path-less body. */
  predicate BadKey(key: string) {
    Lower(key) != "members" && Mentions(Lower(key))
  }

  function KeyActions(kind: Kind, fields: Attributes, order: seq<string>): seq<Action>
    requires forall k :: k in order ==> k in fields
    decreases |order|
  {
    if order == [] then []
    else
      var rest := KeyActions(kind, fields, order[1..]);
      if Lower(order[0]) == "members" then [ActionOf(kind, fields[order[0]])] + rest else rest
  }

  function PlanOf(op: Operation): Plan
    requires WellFormed(op)
  {
    match op.path
    case Whole =>
      if !op.value.Object? then Plan([])
      else if exists k :: k in op.order && BadKey(k) then Invalid
      else Plan(KeyActions(op.kind, op.value.fields, op.order))
    case Named(attr, attrSub, valueSub, filter) =>
      if Lower(attr) != "members" then Plan([])
      else if attrSub != "" || valueSub != "" then Invalid
      else if filter.NoFilter? then Plan([ActionOf(op.kind, op.value)])
      else if filter.Equals? && Lower(filter.attr) == "value" && op.kind.Remove? then
        Plan([RemoveAll(if filter.value != "" then {filter.value} else {})])
      else Invalid
  }

  /** What one part of a PATCH means for the group's own fields. */
  function RowPart(kind: Kind, attr: string, value: Value, row: GroupRow): GroupRow {
    if kind.Remove? || !value.Text? then row
    else if attr == "displayname" then row.(displayName := value.text)
    else if attr == "externalid" then row.(externalId := value.text)
    else row
  }

  function RowKeys(kind: Kind, fields: Attributes, order: seq<string>, row: GroupRow): GroupRow
    requires forall k :: k in order ==> k in fields
    decreases |order|
  {
    if order == [] then row
    else RowKeys(kind, fields, order[1..], RowPart(kind, Lower(order[0]), fields[order[0]], row))
  }

  function RowAfter(op: Operation, row: GroupRow): GroupRow
    requires WellFormed(op)
  {
    match op.path
    case Whole => if op.value.Object? then RowKeys(op.kind, op.value.fields, op.order, row) else row
    case Named(attr, _, valueSub, filter) =>
      if filter.NoFilter? && valueSub == "" then RowPart(op.kind, Lower(attr), op.value, row) else row
  }

  function RowAfterAll(ops: seq<Operation>, row: GroupRow): GroupRow
    requires forall op :: op in ops ==> WellFormed(op)
    decreases |ops|
  {
    if ops == [] then row else RowAfterAll(ops[1..], RowAfter(ops[0], row))
  }

  function PlanAll(ops: seq<Operation>): Plan
    requires forall op :: op in ops ==> WellFormed(op)
    decreases |ops|
  {
    if ops == [] then Plan([])
    else Join(PlanOf(ops[0]), PlanAll(ops[1..]))
  }

  function Join(first: Plan, second: Plan): Plan {
    if first.Plan? && second.Plan? then Plan(first.actions + second.actions) else Invalid
  }

  lemma {:induction false} PerformInTurn(members: set<string>, first: seq<Action>, second: seq<Action>)
    ensures PerformAll(members, first + second) == PerformAll(PerformAll(members, first), second)
    decreases |first|
  {
    if first == [] {
      assert first + second == second;
    } else {
      assert (first + second)[1..] == first[1..] + second;
      PerformInTurn(Perform(members, first[0]), first[1..], second);
    }
  }

  // ----- the handler as it runs -----

  /** slices.Contains-guarded appends of an add. */
  method Append(members: seq<string>, ids: seq<string>) returns (next: seq<string>)
    ensures Members(next) == Members(members) + Members(ids)
  {
    next := members;
    for i := 0 to |ids|
      invariant Members(next) == Members(members) + Members(ids[..i])
    {
      assert Members(next + [ids[i]]) == Members(next) + {ids[i]};
      if ids[i] !in next {
        next := next + [ids[i]];
      }
      assert Members(ids[..i + 1]) == Members(ids[..i]) + {ids[i]};
    }
    assert ids[..|ids|] == ids;
  }

  /** slices.DeleteFunc. */
  method DeleteAll(members: seq<string>, gone: seq<string>) returns (next: seq<string>)
    ensures Members(next) == Members(members) - Members(gone)
  {
    next := [];
    for i := 0 to |members|
      invariant Members(next) == Members(members[..i]) - Members(gone)
    {
      assert Members(next + [members[i]]) == Members(next) + {members[i]};
      if members[i] !in gone {
        next := next + [members[i]];
      }
      assert Members(members[..i + 1]) == Members(members[..i]) + {members[i]};
    }
    assert members[..|members|] == members;
  }

  method ApplyMembers(kind: Kind, value: Value, members: seq<string>) returns (next: seq<string>)
    ensures Members(next) == Perform(Members(members), ActionOf(kind, value))
  {
    match kind {
      case Add =>
        next := Append(members, MemberValues(value));
      case Remove =>
        var kept := members;
        if value.Null? {
          kept := [];
        }
        next := DeleteAll(kept, MemberValues(value));
      case Replace =>
        next := MemberValues(value);
    }
  }

  /** What Patch collects before it writes: the group's fields and its members in some order. */
  datatype Draft = Draft(row: GroupRow, members: seq<string>)

  method ApplyPart(kind: Kind, attr: string, value: Value, draft: Draft) returns (next: Draft)
    ensures Members(next.members) ==
      if attr == "members" then Perform(Members(draft.members), ActionOf(kind, value)) else Members(draft.members)
    ensures next.row == RowPart(kind, attr, value, draft.row)
  {
    next := draft;
    if attr == "displayname" {
      if value.Text? && !kind.Remove? {
        next := next.(row := next.row.(displayName := value.text));
      }
    } else if attr == "externalid" {
      if value.Text? && !kind.Remove? {
        next := next.(row := next.row.(externalId := value.text));
      }
    } else if attr == "members" {
      var members := ApplyMembers(kind, value, next.members);
      next := next.(members := members);
    }
  }

  method ApplyBody(kind: Kind, fields: Attributes, order: seq<string>, draft: Draft) returns (ok: bool, next: Draft)
    requires forall k :: k in order ==> k in fields
    ensures ok <==> !exists k :: k in order && BadKey(k)
    ensures ok ==> Members(next.members) == PerformAll(Members(draft.members), KeyActions(kind, fields, order))
    ensures ok ==> next.row == RowKeys(kind, fields, order, draft.row)
  {
    next := draft;
    for i := 0 to |order|
      invariant forall k :: k in order[..i] ==> !BadKey(k)
      invariant PerformAll(Members(next.members), KeyActions(kind, fields, order[i..]))
             == PerformAll(Members(draft.members), KeyActions(kind, fields, order))
      invariant RowKeys(kind, fields, order[i..], next.row) == RowKeys(kind, fields, order, draft.row)
    {
      var key := order[i];
      assert order[i..][0] == key && order[i..][1..] == order[i + 1..] && key in order;
      if BadKey(key) {
        return false, next;
      }
      next := ApplyPart(kind, Lower(key), fields[key], next);
    }
    assert order[..|order|] == order && order[|order|..] == [];
    ok := true;
  }

  method ApplyOperation(op: Operation, draft: Draft) returns (ok: bool, next: Draft)
    requires WellFormed(op)
    ensures ok <==> PlanOf(op).Plan?
    ensures ok ==> Members(next.members) == PerformAll(Members(draft.members), PlanOf(op).actions)
    ensures ok ==> next.row == RowAfter(op, draft.row)
  {
    next := draft;
    match op.path {
      case Whole =>
        if op.value.Object? {
          var fine;
          fine, next := ApplyBody(op.kind, op.value.fields, op.order, draft);
          return fine, next;
        }
      case Named(attr, attrSub, valueSub, filter) =>
        if Lower(attr) == "members" {
          if valueSub != "" || attrSub != "" {
            return false, next;
          }
          if filter.NoFilter? {
            next := ApplyPart(op.kind, "members", op.value, draft);
          } else {
            if !filter.Equals? || Lower(filter.attr) != "value" || !op.kind.Remove? {
              return false, next;
            }
            TargetIsOne(filter.value);
            next := ApplyPart(Remove, "members", List([Object(map["value" := Text(filter.value)])]), draft);
          }
        } else if filter.NoFilter? && valueSub == "" {
          next := ApplyPart(op.kind, Lower(attr), op.value, draft);
        }
    }
    ok := true;
  }

  lemma TargetIsOne(id: string)
    ensures Members(MemberValues(List([Object(map["value" := Text(id)])]))) == if id != "" then {id} else {}
  {
    var item := Object(map["value" := Text(id)]);
    assert TextAt(item.fields, "value") == Some(id) && [item][1..] == [];
    assert ItemValues([item]) == if id != "" then [id] else [];
  }

  lemma PlanStep(ops: seq<Operation>, i: nat, done: seq<Action>)
    requires i < |ops| && forall op :: op in ops ==> WellFormed(op)
    requires PlanAll(ops) == Join(Plan(done), PlanAll(ops[i..]))
    ensures ops[i] in ops
    ensures PlanOf(ops[i]).Invalid? ==> PlanAll(ops).Invalid?
    ensures PlanOf(ops[i]).Plan? ==> PlanAll(ops) == Join(Plan(done + PlanOf(ops[i]).actions), PlanAll(ops[i + 1..]))
  {
    assert ops[i..][0] == ops[i] && ops[i..][1..] == ops[i + 1..];
    if PlanOf(ops[i]).Plan? && PlanAll(ops[i + 1..]).Plan? {
      var a, b := PlanOf(ops[i]).actions, PlanAll(ops[i + 1..]).actions;
      assert done + (a + b) == (done + a) + b;
    }
  }

  /** The loop of Patch: every operation in turn on one draft, nothing written yet. */
  method ApplyOperations(ops: seq<Operation>, start: Draft) returns (ok: bool, draft: Draft)
    requires forall op :: op in ops ==> WellFormed(op)
    ensures ok <==> PlanAll(ops).Plan?
    ensures ok ==> Members(draft.members) == PerformAll(Members(start.members), PlanAll(ops).actions)
    ensures ok ==> draft.row == RowAfterAll(ops, start.row)
  {
    draft := start;
    ghost var done: seq<Action> := [];
    assert ops[0..] == ops && PlanAll(ops) == Join(Plan([]), PlanAll(ops));
    for i := 0 to |ops|
      invariant PlanAll(ops) == Join(Plan(done), PlanAll(ops[i..]))
      invariant Members(draft.members) == PerformAll(Members(start.members), done)
      invariant RowAfterAll(ops[i..], draft.row) == RowAfterAll(ops, start.row)
    {
      PlanStep(ops, i, done);
      assert ops[i..][0] == ops[i] && ops[i..][1..] == ops[i + 1..];
      var fine;
      fine, draft := ApplyOperation(ops[i], draft);
      if !fine {
        return false, draft;
      }
      PerformInTurn(Members(start.members), done, PlanOf(ops[i]).actions);
      done := done + PlanOf(ops[i]).actions;
    }
    assert ops[|ops|..] == [] && done + [] == done;
    ok := true;
  }

  function StringOr(text: string, fallback: string): string {
    if text != "" then text else fallback
  }

  /** The row a group ends up with: an empty field keeps the stored one. */
  function Merged(row: GroupRow, stored: GroupRow): GroupRow {
    GroupRow(StringOr(row.displayName, stored.displayName), StringOr(row.externalId, stored.externalId))
  }

  function MembersOf(pairs: set<(string, string)>, group: string): set<string> {
    set m | m in pairs && m.0 == group :: m.1
  }

  function PairsOf(ids: set<string>, group: string): set<(string, string)> {
    set id | id in ids :: (group, id)
  }

  /** Every write from `from` on moves one member of the symmetric difference, the right way. */
  predicate OnlyDifference(writes: seq<StoreWrite>, from: nat, group: string, before: set<string>, next: set<string>) {
    forall i :: from <= i < |writes| ==>
      match writes[i]
      case UpdateGroup(_, _) => false
      case RemoveMember(g, id) => g == group && id in before && id !in next
      case AddMember(g, id) => g == group && id in next && id !in before
  }

  /** The store as the group handler uses it. `writes` is a log of the statements it sent. */
  class GroupHandler {
    var accounts: map<string, User>
    var groups: map<string, GroupRow>
    var members: set<(string, string)>
    ghost var writes: seq<StoreWrite>

    predicate IsManaged(id: string)
      reads this`accounts
    {
      id in accounts && accounts[id].managed
    }

    /** SELECT user_id: the members once each, in whatever order the database answers. */
    method GetMembers(group: string) returns (ids: seq<string>)
      ensures Members(ids) == MembersOf(members, group)
    {
      ids := [];
      var left := MembersOf(members, group);
      while left != {}
        invariant left <= MembersOf(members, group) && Members(ids) == MembersOf(members, group) - left
        decreases left
      {
        var id :| id in left;
        assert Members(ids + [id]) == Members(ids) + {id};
        ids, left := ids + [id], left - {id};
      }
    }

    /** checkMembers: only ids that were not members already are looked up. */
    method CheckMembers(before: seq<string>, next: seq<string>) returns (ok: bool)
      ensures ok <==> forall id :: id in Members(next) - Members(before) ==> IsManaged(id)
    {
      for i := 0 to |next|
        invariant forall id :: id in next[..i] && id !in before ==> IsManaged(id)
      {
        if next[i] !in before && (next[i] !in accounts || !accounts[next[i]].managed) {
          assert next[i] in Members(next) - Members(before);
          return false;
        }
      }
      ok := true;
    }

    method RemoveGroupMember(group: string, id: string)
      modifies this`members, this`writes
      ensures members == old(members) - {(group, id)} && writes == old(writes) + [RemoveMember(group, id)]
    {
      members, writes := members - {(group, id)}, writes + [RemoveMember(group, id)];
    }

    method AddGroupMember(group: string, id: string)
      modifies this`members, this`writes
      ensures members == old(members) + {(group, id)} && writes == old(writes) + [AddMember(group, id)]
    {
      members, writes := members + {(group, id)}, writes + [AddMember(group, id)];
    }

    /** replaceMembers: removes first, then adds, and only the difference. */
    method ReplaceMembers(group: string, before: seq<string>, next: seq<string>)
      requires MembersOf(members, group) == Members(before)
      modifies this`members, this`writes
      ensures members == old(members) - PairsOf(Members(before), group) + PairsOf(Members(next), group)
      ensures old(writes) <= writes && OnlyDifference(writes, |old(writes)|, group, Members(before), Members(next))
    {
      for i := 0 to |before|
        invariant members == old(members) - PairsOf(Members(before[..i]) - Members(next), group)
        invariant old(writes) <= writes && OnlyDifference(writes, |old(writes)|, group, Members(before), Members(next))
      {
        if before[i] !in next {
          RemoveGroupMember(group, before[i]);
        }
        assert Members(before[..i + 1]) == Members(before[..i]) + {before[i]};
      }
      assert before[..|before|] == before;
      for i := 0 to |next|
        invariant members
          == old(members) - PairsOf(Members(before) - Members(next), group)
            + PairsOf(Members(next[..i]) - Members(before), group)
        invariant old(writes) <= writes && OnlyDifference(writes, |old(writes)|, group, Members(before), Members(next))
      {
        if next[i] !in before {
          AddGroupMember(group, next[i]);
        }
        assert Members(next[..i + 1]) == Members(next[..i]) + {next[i]};
      }
      assert next[..|next|] == next;
    }

    predicate NameInUse(group: string, name: string)
      reads this`groups
    {
      exists other :: other in groups && other != group && groups[other].displayName == name
    }

    /** replace: every refusal comes before the first write. */
    method Replace(group: string, draft: Draft) returns (reply: Reply)
      modifies this`groups, this`members, this`writes
      ensures reply.Rejected? ==> groups == old(groups) && members == old(members) && writes == old(writes)
      ensures reply.Rejected? ==>
        || group !in groups
        || (exists id :: id in Members(draft.members) - MembersOf(members, group) && !IsManaged(id))
        || NameInUse(group, Merged(draft.row, groups[group]).displayName)
      ensures reply.Answered? ==>
        && reply.members == draft.members
        && group in old(groups) && group in groups && !NameInUse(group, groups[group].displayName)
        && (forall id :: id in Members(draft.members) - MembersOf(old(members), group) ==> IsManaged(id))
        && groups == old(groups)[group := Merged(draft.row, old(groups)[group])]
        && members
          == old(members) - PairsOf(MembersOf(old(members), group), group) + PairsOf(Members(draft.members), group)
        && old(writes) + [UpdateGroup(group, groups[group])] <= writes
        && OnlyDifference(writes, |old(writes)| + 1, group, MembersOf(old(members), group), Members(draft.members))
    {
      if group !in groups {
        return Rejected(UnknownGroup);
      }
      var before := GetMembers(group);
      var row := Merged(draft.row, groups[group]);
      var known := CheckMembers(before, draft.members);
      if !known {
        return Rejected(InvalidMember);
      }
      if NameInUse(group, row.displayName) {
        return Rejected(NameTaken);
      }
      groups, writes := groups[group := row], writes + [UpdateGroup(group, row)];
      ReplaceMembers(group, before, draft.members);
      reply := Answered(draft.members);
    }

    /** PATCH either refuses and leaves the store untouched, or leaves the group with exactly its
        members put through the operations one after another, every other group untouched and
        no member written that did not have to move. */
    method Patch(group: string, ops: seq<Operation>) returns (reply: Reply)
      requires forall op :: op in ops ==> WellFormed(op)
      modifies this`groups, this`members, this`writes
      ensures reply.Rejected? ==> groups == old(groups) && members == old(members) && writes == old(writes)
      ensures reply.Answered? ==>
        var start := MembersOf(old(members), group);
        && group in old(groups) && PlanAll(ops).Plan? && group in groups && !NameInUse(group, groups[group].displayName)
        && var final := PerformAll(start, PlanAll(ops).actions);
        && Members(reply.members) == final
        && (forall id :: id in final - start ==> IsManaged(id))
        && groups == old(groups)[group := Merged(RowAfterAll(ops, old(groups)[group]), old(groups)[group])]
        && members == old(members) - PairsOf(start, group) + PairsOf(final, group)
        && old(writes) + [UpdateGroup(group, groups[group])] <= writes
        && OnlyDifference(writes, |old(writes)| + 1, group, start, final)
      ensures reply.Rejected? ==>
        || group !in groups || PlanAll(ops).Invalid?
        || (exists id ::
             && id in PerformAll(MembersOf(members, group), PlanAll(ops).actions) - MembersOf(members, group)
             && !IsManaged(id))
        || NameInUse(group, Merged(RowAfterAll(ops, groups[group]), groups[group]).displayName)
    {
      if group !in groups {
        return Rejected(UnknownGroup);
      }
      var before := GetMembers(group);
      var ok, draft := ApplyOperations(ops, Draft(groups[group], before));
      if !ok {
        return Rejected(InvalidPath);
      }
      reply := Replace(group, draft);
    }
  }

  function MemberMaps(ids: seq<string>): seq<Value> {
    seq(|ids|, i requires 0 <= i < |ids| => Object(map["value" := Text(ids[i])]))
  }

  /** Patch hands its members to replace as SCIM values; replace reads the same ids back. */
  lemma {:induction false} MapsReadBack(ids: seq<string>)
    requires "" !in ids
    ensures MemberValues(List(MemberMaps(ids))) == ids
    decreases |ids|
  {
    if ids != [] {
      var items := MemberMaps(ids);
      assert ids[0] in ids;
      assert items[1..] == MemberMaps(ids[1..]);
      assert TextAt(items[0].fields, "value") == Some(ids[0]);
      MapsReadBack(ids[1..]);
      assert ids == [ids[0]] + ids[1..];
    }
  }

  // ----- the order of a body's keys -----

  /** No two keys of a path-less body differ only in letter case. */
  predicate NoCaseClash(fields: Attributes) {
    forall a, b :: a in fields && b in fields && SameFold(a, b) ==> a == b
  }

  lemma {:induction false} KeyActionsAre(kind: Kind, fields: Attributes, order: seq<string>)
    requires NoDuplicates(order) && NoCaseClash(fields) && forall k :: k in order ==> k in fields
    ensures (forall k :: k in order ==> Lower(k) != "members") ==> KeyActions(kind, fields, order) == []
    ensures forall k :: k in order && Lower(k) == "members" ==>
      KeyActions(kind, fields, order) == [ActionOf(kind, fields[k])]
    decreases |order|
  {
    if order != [] {
      assert order[0] in order;
      KeyActionsAre(kind, fields, order[1..]);
      if Lower(order[0]) == "members" {
        assert forall k :: k in order[1..] ==> k in order && k != order[0] && Lower(k) != "members";
      } else {
        assert forall k :: k in order ==> k == order[0] || k in order[1..];
      }
    }
  }

  function FieldAt(row: GroupRow, attr: string): string {
    if attr == "displayname" then row.displayName else row.externalId
  }

  lemma PartsKeepApart(kind: Kind, key: string, attr: string, value: Value, row: GroupRow)
    requires attr == "displayname" || attr == "externalid"
    ensures key != attr ==> FieldAt(RowPart(kind, key, value, row), attr) == FieldAt(row, attr)
    ensures key == attr ==>
      FieldAt(RowPart(kind, key, value, row), attr)
      == if kind.Remove? || !value.Text? then FieldAt(row, attr) else value.text
  {
  }

  /** What a body makes of one of the group's own fields: the one key that names it decides. */
  lemma {:induction false} RowKeysAre(kind: Kind, fields: Attributes, order: seq<string>, row: GroupRow, attr: string)
    requires NoDuplicates(order) && NoCaseClash(fields) && forall k :: k in order ==> k in fields
    requires attr == "displayname" || attr == "externalid"
    ensures (forall k :: k in order ==> Lower(k) != attr) ==>
      FieldAt(RowKeys(kind, fields, order, row), attr) == FieldAt(row, attr)
    ensures forall k :: k in order && Lower(k) == attr ==>
      FieldAt(RowKeys(kind, fields, order, row), attr)
      == if kind.Remove? || !fields[k].Text? then FieldAt(row, attr) else fields[k].text
    decreases |order|
  {
    if order != [] {
      var first, next := order[0], RowPart(kind, Lower(order[0]), fields[order[0]], row);
      assert first in order && forall k :: k in order[1..] ==> k in order && k != first && !SameFold(k, first);
      assert forall k :: k in order ==> k == first || k in order[1..];
      PartsKeepApart(kind, Lower(first), attr, fields[first], row);
      RowKeysAre(kind, fields, order[1..], next, attr);
    }
  }

  /** With no two keys differing only in letter case, the order in which a body is visited changes
      neither whether it is refused nor what it does to the members or the group's own fields. */
  lemma OrderChangesNothing(kind: Kind, fields: Attributes, some: seq<string>, other: seq<string>, row: GroupRow)
    requires Visits(some, fields) && Visits(other, fields) && NoCaseClash(fields)
    ensures PlanOf(Operation(kind, Whole, Object(fields), some))
      == PlanOf(Operation(kind, Whole, Object(fields), other))
    ensures RowAfter(Operation(kind, Whole, Object(fields), some), row)
      == RowAfter(Operation(kind, Whole, Object(fields), other), row)
  {
    KeyActionsAre(kind, fields, some);
    KeyActionsAre(kind, fields, other);
    assert forall k :: k in some <==> k in other;
    FieldsAgree(kind, fields, some, other, row, "displayname");
    FieldsAgree(kind, fields, some, other, row, "externalid");
  }

  lemma FieldsAgree(kind: Kind, fields: Attributes, some: seq<string>, other: seq<string>, row: GroupRow, attr: string)
    requires Visits(some, fields) && Visits(other, fields) && NoCaseClash(fields)
    requires attr == "displayname" || attr == "externalid"
    ensures FieldAt(RowKeys(kind, fields, some, row), attr) == FieldAt(RowKeys(kind, fields, other, row), attr)
  {
    RowKeysAre(kind, fields, some, row, attr);
    RowKeysAre(kind, fields, other, row, attr);
    if k :| k in some && Lower(k) == attr {
      assert k in other;
    } else {
      assert forall k :: k in other ==> k in some;
    }
  }
}
