/** What a list of SCIM operations does to a group, in the operations' own fields: who stays, who comes, who
    goes, which lists are refused, and what becomes of the group's name and externalId
    (internal/scim/handler.go:613-679, 722-739). */
module GroupOperations {
  import opened Accounts
  import opened Basics
  import opened ScimUser
  import opened Groups

  // ----- what an operation says of a member -----

  /** The value is a list with an object whose `value` is the id. */
  predicate Lists(value: Value, id: string) {
    id != "" && value.List? &&
    exists item :: item in value.items && item.Object? && "value" in item.fields && item.fields["value"] == Text(id)
  }

  /** The operation sends this value for the members: through their path without a filter, or under a key of a
      body without a path. */
  predicate Sends(op: Operation, value: Value) {
    match op.path
    case Whole =>
      op.value.Object? && exists k :: k in op.value.fields && Lower(k) == "members" && op.value.fields[k] == value
    case Named(attr, _, _, filter) => Lower(attr) == "members" && filter.NoFilter? && op.value == value
  }

  /** It names one member by `members[value eq "id"]`. */
  predicate Filters(op: Operation, id: string) {
    op.path.Named? && Lower(op.path.attr) == "members" && op.path.filter.Equals?
      && Lower(op.path.filter.attr) == "value" && op.path.filter.value == id && id != ""
  }

  ghost predicate Gives(op: Operation, id: string) {
    !op.kind.Remove? && exists value :: Sends(op, value) && Lists(value, id)
  }

  /** It replaces the members without that one, removes all of them, or removes that one. */
  ghost predicate Takes(op: Operation, id: string) {
    || (op.kind.Replace? && exists value :: Sends(op, value) && !Lists(value, id))
    || (op.kind.Remove? && exists value :: Sends(op, value) && (value.Null? || Lists(value, id)))
    || (op.kind.Remove? && Filters(op, id))
  }

  /** A member sub-attribute or a member filter other than a remove by value, or such a thing hidden in a key. */
  ghost predicate Malformed(op: Operation) {
    match op.path
    case Whole =>
      op.value.Object? && exists k, before, after ::
        k in op.value.fields && Lower(k) == before + "members" + after && Lower(k) != "members"
    case Named(attr, attrSub, valueSub, filter) =>
      Lower(attr) == "members"
      && (attrSub != "" || valueSub != ""
          || (!filter.NoFilter? && !(op.kind.Remove? && filter.Equals? && Lower(filter.attr) == "value")))
  }

  // ----- which lists are refused -----

  lemma KeyIsBad(key: string)
    ensures BadKey(key) <==> Lower(key) != "members" && exists before, after :: Lower(key) == before + "members" + after
  {
    var k := Lower(key);
    if Mentions(k) {
      var i :| 0 <= i < |k| && "members" <= k[i..];
      assert k == k[..i] + "members" + k[i..][7..];
    }
    if before, after :| k == before + "members" + after {
      assert k[|before|..] == "members" + after && |before| < |k|;
    }
  }

  lemma OneIsRefused(op: Operation)
    requires WellFormed(op)
    ensures PlanOf(op).Invalid? <==> Malformed(op)
  {
    if op.path.Whole? && op.value.Object? {
      forall k | k in op.value.fields
        ensures BadKey(k) <==> Lower(k) != "members" && exists before, after :: Lower(k) == before + "members" + after
      {
        KeyIsBad(k);
      }
      if PlanOf(op).Invalid? {
        var k :| k in op.order && BadKey(k);
        var before, after :| Lower(k) == before + "members" + after;
        assert k in op.value.fields;
      }
      if Malformed(op) {
        var k, before, after :|
          k in op.value.fields && Lower(k) == before + "members" + after && Lower(k) != "members";
        assert k in op.order && BadKey(k);
      }
    }
  }

  /** A PATCH is refused as an invalid path exactly when one of its operations is malformed. */
  lemma {:induction false} RefusedExactlyIfMalformed(ops: seq<Operation>)
    requires forall op :: op in ops ==> WellFormed(op)
    ensures PlanAll(ops).Invalid? <==> exists op :: op in ops && Malformed(op)
    decreases |ops|
  {
    if ops != [] {
      assert ops[0] in ops;
      OneIsRefused(ops[0]);
      RefusedExactlyIfMalformed(ops[1..]);
      assert forall op :: op in ops <==> op == ops[0] || op in ops[1..];
    }
  }

  // ----- one operation -----

  predicate ActionGives(action: Action, id: string) {
    (action.AddAll? || action.ReplaceAll?) && id in action.ids
  }

  predicate ActionTakes(action: Action, id: string) {
    action.Clear? || (action.RemoveAll? && id in action.ids) || (action.ReplaceAll? && id !in action.ids)
  }

  lemma {:induction false} ItemsList(items: seq<Value>, id: string)
    ensures id in ItemValues(items) <==> Lists(List(items), id)
    decreases |items|
  {
    if items != [] {
      ItemsList(items[1..], id);
      var item := items[0];
      assert forall other :: other in items <==> other == item || other in items[1..];
      if Lists(List(items), id) && !Lists(List(items[1..]), id) {
        assert item.Object? && "value" in item.fields && item.fields["value"] == Text(id);
      }
    }
  }

  lemma ValueLists(value: Value, id: string)
    ensures id in Members(MemberValues(value)) <==> Lists(value, id)
  {
    if value.List? {
      ItemsList(value.items, id);
    }
  }

  lemma ActionSays(kind: Kind, value: Value, id: string)
    ensures ActionGives(ActionOf(kind, value), id) <==> !kind.Remove? && Lists(value, id)
    ensures ActionTakes(ActionOf(kind, value), id) <==>
      (kind.Replace? && !Lists(value, id)) || (kind.Remove? && (value.Null? || Lists(value, id)))
  {
    ValueLists(value, id);
  }

  /** The values a pass over a body sends for the members. */
  predicate KeySends(fields: Attributes, order: seq<string>, value: Value)
    requires forall k :: k in order ==> k in fields
  {
    exists k :: k in order && Lower(k) == "members" && fields[k] == value
  }

  lemma {:induction false} KeysSend(kind: Kind, fields: Attributes, order: seq<string>, action: Action)
    requires forall k :: k in order ==> k in fields
    ensures action in KeyActions(kind, fields, order) <==>
      exists value :: KeySends(fields, order, value) && action == ActionOf(kind, value)
    decreases |order|
  {
    if order != [] {
      var first := order[0];
      assert first in order;
      KeysSend(kind, fields, order[1..], action);
      assert forall k :: k in order <==> k == first || k in order[1..];
      forall value ensures KeySends(fields, order, value) <==>
        (Lower(first) == "members" && fields[first] == value) || KeySends(fields, order[1..], value)
      {
      }
    }
  }

  /** What the plan of a well-formed operation does with a member is what the operation says. */
  lemma PlanSays(op: Operation, id: string)
    requires WellFormed(op) && PlanOf(op).Plan?
    ensures (exists a :: a in PlanOf(op).actions && ActionGives(a, id)) <==> Gives(op, id)
    ensures (exists a :: a in PlanOf(op).actions && ActionTakes(a, id)) <==> Takes(op, id)
  {
    if op.path.Whole? {
      if op.value.Object? {
        BodySays(op, id);
      }
    } else if Lower(op.path.attr) == "members" {
      PathSays(op, id);
    }
  }

  lemma BodySays(op: Operation, id: string)
    requires WellFormed(op) && PlanOf(op).Plan? && op.path.Whole? && op.value.Object?
    ensures (exists a :: a in PlanOf(op).actions && ActionGives(a, id)) <==> Gives(op, id)
    ensures (exists a :: a in PlanOf(op).actions && ActionTakes(a, id)) <==> Takes(op, id)
  {
    var fields, order := op.value.fields, op.order;
    forall value ensures KeySends(fields, order, value) <==> Sends(op, value) {
      assert forall k :: k in order <==> k in fields;
    }
    forall value ensures Sends(op, value) ==> ActionOf(op.kind, value) in PlanOf(op).actions {
      KeysSend(op.kind, fields, order, ActionOf(op.kind, value));
      ActionSays(op.kind, value, id);
    }
    forall a | a in PlanOf(op).actions ensures exists value :: Sends(op, value) && a == ActionOf(op.kind, value) {
      KeysSend(op.kind, fields, order, a);
    }
    forall value
      ensures ActionGives(ActionOf(op.kind, value), id) <==> !op.kind.Remove? && Lists(value, id)
      ensures ActionTakes(ActionOf(op.kind, value), id) <==>
        (op.kind.Replace? && !Lists(value, id)) || (op.kind.Remove? && (value.Null? || Lists(value, id)))
    {
      ActionSays(op.kind, value, id);
    }
  }

  lemma PathSays(op: Operation, id: string)
    requires WellFormed(op) && PlanOf(op).Plan? && op.path.Named? && Lower(op.path.attr) == "members"
    ensures (exists a :: a in PlanOf(op).actions && ActionGives(a, id)) <==> Gives(op, id)
    ensures (exists a :: a in PlanOf(op).actions && ActionTakes(a, id)) <==> Takes(op, id)
  {
    var action := PlanOf(op).actions[0];
    assert PlanOf(op).actions == [action] && action in PlanOf(op).actions;
    if op.path.filter.NoFilter? {
      ActionSays(op.kind, op.value, id);
      assert Sends(op, op.value);
    }
  }

  // ----- lists of operations -----

  /** The members after the operations, as PATCH leaves them. */
  function MembersAfter(start: set<string>, ops: seq<Operation>): set<string>
    requires forall op :: op in ops ==> WellFormed(op)
    requires PlanAll(ops).Plan?
  {
    PerformAll(start, PlanAll(ops).actions)
  }

  lemma {:induction false} ActionsKeep(members: set<string>, actions: seq<Action>, id: string)
    ensures id in members && (forall a :: a in actions ==> !ActionTakes(a, id)) ==> id in PerformAll(members, actions)
    ensures id !in members && (forall a :: a in actions ==> !ActionGives(a, id)) ==> id !in PerformAll(members, actions)
    decreases |actions|
  {
    if actions != [] {
      assert actions[0] in actions;
      ActionsKeep(Perform(members, actions[0]), actions[1..], id);
    }
  }

  lemma {:induction false} ActionsChange(members: set<string>, actions: seq<Action>, id: string)
    ensures (exists a :: a in actions && ActionGives(a, id)) && (forall a :: a in actions ==> !ActionTakes(a, id)) ==>
      id in PerformAll(members, actions)
    ensures (exists a :: a in actions && ActionTakes(a, id)) && (forall a :: a in actions ==> !ActionGives(a, id)) ==>
      id !in PerformAll(members, actions)
    decreases |actions|
  {
    if actions != [] {
      assert actions[0] in actions;
      assert forall a :: a in actions <==> a == actions[0] || a in actions[1..];
      ActionsKeep(Perform(members, actions[0]), actions[1..], id);
      ActionsChange(Perform(members, actions[0]), actions[1..], id);
    }
  }

  lemma OperationFirst(start: set<string>, ops: seq<Operation>)
    requires ops != [] && (forall op :: op in ops ==> WellFormed(op)) && PlanAll(ops).Plan?
    ensures ops[0] in ops && PlanOf(ops[0]).Plan? && PlanAll(ops[1..]).Plan?
    ensures MembersAfter(start, ops) == MembersAfter(PerformAll(start, PlanOf(ops[0]).actions), ops[1..])
  {
    PerformInTurn(start, PlanOf(ops[0]).actions, PlanAll(ops[1..]).actions);
  }

  /** A member stays unless an operation takes it: replaces the members without it, removes all of them, or
      removes it by value or filter. And nobody becomes a member whom no add or replace lists. */
  lemma {:induction false} MembersStayUnlessTaken(start: set<string>, ops: seq<Operation>, id: string)
    requires (forall op :: op in ops ==> WellFormed(op)) && PlanAll(ops).Plan?
    ensures id in start && id !in MembersAfter(start, ops) ==> exists op :: op in ops && Takes(op, id)
    ensures id !in start && id in MembersAfter(start, ops) ==> exists op :: op in ops && Gives(op, id)
    decreases |ops|
  {
    if ops != [] {
      OperationFirst(start, ops);
      var next := PerformAll(start, PlanOf(ops[0]).actions);
      PlanSays(ops[0], id);
      ActionsKeep(start, PlanOf(ops[0]).actions, id);
      MembersStayUnlessTaken(next, ops[1..], id);
    }
  }

  /** The last operation that says something of an id decides: given and not taken after, it is a member; taken
      and not given after, it is none. */
  lemma {:induction false} LastWordDecides(start: set<string>, ops: seq<Operation>, i: nat, id: string)
    requires (forall op :: op in ops ==> WellFormed(op)) && PlanAll(ops).Plan? && i < |ops|
    ensures Gives(ops[i], id) && !Takes(ops[i], id) && (forall op :: op in ops[i + 1..] ==> !Takes(op, id)) ==>
      id in MembersAfter(start, ops)
    ensures Takes(ops[i], id) && !Gives(ops[i], id) && (forall op :: op in ops[i + 1..] ==> !Gives(op, id)) ==>
      id !in MembersAfter(start, ops)
    decreases i
  {
    OperationFirst(start, ops);
    var next := PerformAll(start, PlanOf(ops[0]).actions);
    if i == 0 {
      PlanSays(ops[0], id);
      ActionsChange(start, PlanOf(ops[0]).actions, id);
      MembersStayUnlessTaken(next, ops[1..], id);
    } else {
      assert ops[1..][i - 1] == ops[i] && ops[1..][i..] == ops[i + 1..];
      LastWordDecides(next, ops[1..], i - 1, id);
    }
  }

  /** `remove members[value eq "id"]` alone takes exactly that member. */
  lemma FilteredRemoveTakesOne(start: set<string>, attr: string, filter: Filter, value: Value)
    requires Lower(attr) == "members" && filter.Equals? && Lower(filter.attr) == "value" && filter.value != ""
    ensures
      var op := Operation(Remove, Named(attr, "", "", filter), value, []);
      PlanAll([op]).Plan? && MembersAfter(start, [op]) == start - {filter.value}
  {
    var op := Operation(Remove, Named(attr, "", "", filter), value, []);
    assert [op][1..] == [];
    var action := RemoveAll({filter.value});
    assert [action] + [] == [action] && [action][1..] == [];
    assert PlanOf(op) == Plan([action]) && PlanAll([op]) == Join(PlanOf(op), PlanAll([]));
    assert PerformAll(start, [action]) == PerformAll(Perform(start, action), []);
  }

  // ----- the group's own fields -----

  /** The operation sends a text for the field. */
  predicate SendsField(op: Operation, attr: string, text: string) {
    !op.kind.Remove? &&
    match op.path
    case Whole =>
      op.value.Object? && exists k :: k in op.value.fields && Lower(k) == attr && op.value.fields[k] == Text(text)
    case Named(name, _, valueSub, filter) =>
      Lower(name) == attr && valueSub == "" && filter.NoFilter? && op.value == Text(text)
  }

  predicate IsField(attr: string) { attr == "displayname" || attr == "externalid" }

  predicate KeySendsField(kind: Kind, fields: Attributes, order: seq<string>, attr: string, text: string)
    requires forall k :: k in order ==> k in fields
  {
    !kind.Remove? && exists k :: k in order && Lower(k) == attr && fields[k] == Text(text)
  }

  lemma {:induction false} BodyField(kind: Kind, fields: Attributes, order: seq<string>, row: GroupRow, attr: string)
    requires IsField(attr) && forall k :: k in order ==> k in fields
    ensures
      var text := FieldAt(RowKeys(kind, fields, order, row), attr);
      text == FieldAt(row, attr) || KeySendsField(kind, fields, order, attr, text)
    ensures FieldAt(RowKeys(kind, fields, order, row), attr) == FieldAt(row, attr)
         || exists text :: KeySendsField(kind, fields, order, attr, text)
    ensures (exists text :: KeySendsField(kind, fields, order, attr, text)) ==>
      KeySendsField(kind, fields, order, attr, FieldAt(RowKeys(kind, fields, order, row), attr))
    decreases |order|
  {
    if order != [] {
      var first := order[0];
      assert first in order;
      var next := RowPart(kind, Lower(first), fields[first], row);
      PartsKeepApart(kind, Lower(first), attr, fields[first], row);
      BodyField(kind, fields, order[1..], next, attr);
      assert forall k :: k in order <==> k == first || k in order[1..];
      forall text ensures KeySendsField(kind, fields, order, attr, text) <==>
        (!kind.Remove? && Lower(first) == attr && fields[first] == Text(text))
        || KeySendsField(kind, fields, order[1..], attr, text)
      {
      }
    }
  }

  /** A field keeps its value under an operation that sends no text for it, and otherwise takes one it sends. */
  lemma OneField(op: Operation, row: GroupRow, attr: string)
    requires WellFormed(op) && IsField(attr)
    ensures (forall text :: !SendsField(op, attr, text)) ==> FieldAt(RowAfter(op, row), attr) == FieldAt(row, attr)
    ensures (exists text :: SendsField(op, attr, text)) ==> SendsField(op, attr, FieldAt(RowAfter(op, row), attr))
  {
    if op.path.Whole? && op.value.Object? {
      BodyField(op.kind, op.value.fields, op.order, row, attr);
      forall text ensures
        KeySendsField(op.kind, op.value.fields, op.order, attr, text) <==> SendsField(op, attr, text)
      {
        assert forall k :: k in op.order <==> k in op.value.fields;
      }
    } else if op.path.Named? {
      PartsKeepApart(op.kind, Lower(op.path.attr), attr, op.value, row);
      if op.value.Text? && op.path.filter.NoFilter? && op.path.valueSub == "" {
        assert Lower(op.path.attr) == attr && !op.kind.Remove? ==> SendsField(op, attr, op.value.text);
      }
    }
  }

  lemma {:induction false} FieldStays(ops: seq<Operation>, row: GroupRow, attr: string)
    requires (forall op :: op in ops ==> WellFormed(op)) && IsField(attr)
    requires forall op, text :: op in ops ==> !SendsField(op, attr, text)
    ensures FieldAt(RowAfterAll(ops, row), attr) == FieldAt(row, attr)
    decreases |ops|
  {
    if ops != [] {
      assert ops[0] in ops;
      OneField(ops[0], row, attr);
      FieldStays(ops[1..], RowAfter(ops[0], row), attr);
    }
  }

  /** The last operation that sends a text for the name or externalId decides it. */
  lemma {:induction false} LastTextDecides(ops: seq<Operation>, i: nat, row: GroupRow, attr: string)
    requires (forall op :: op in ops ==> WellFormed(op)) && IsField(attr) && i < |ops|
    requires forall op, text :: op in ops[i + 1..] ==> !SendsField(op, attr, text)
    requires exists text :: SendsField(ops[i], attr, text)
    ensures SendsField(ops[i], attr, FieldAt(RowAfterAll(ops, row), attr))
    decreases i
  {
    assert ops[0] in ops;
    if i == 0 {
      OneField(ops[0], row, attr);
      FieldStays(ops[1..], RowAfter(ops[0], row), attr);
    } else {
      assert ops[1..][i - 1] == ops[i] && ops[1..][i..] == ops[i + 1..];
      LastTextDecides(ops[1..], i - 1, RowAfter(ops[0], row), attr);
    }
  }

  /** A PUT or PATCH that ends with an empty name or externalId keeps the stored one. */
  lemma EmptyKeepsStored(row: GroupRow, stored: GroupRow)
    ensures Merged(row, stored).displayName == if row.displayName == "" then stored.displayName else row.displayName
    ensures Merged(row, stored).externalId == if row.externalId == "" then stored.externalId else row.externalId
  {
  }
}
