/** What one SCIM operation does to an account, attribute by attribute, in terms of the values sent and of
    what GET prints (internal/scim/handler.go:287-396, 437-480). */
module ScimOperations {
  import opened Accounts
  import opened Basics
  import opened ScimUser

  // ----- the value sent -----

  /** The text an item of a list carries: its own, or that of its `value`. */
  predicate Carries(item: Value, text: string) {
    item == Text(text) || (item.Object? && "value" in item.fields && item.fields["value"] == Text(text))
  }

  /** The first item that carries a text decides. */
  lemma {:induction false} ListReadsFirst(items: seq<Value>, i: nat, text: string)
    requires i < |items| && Carries(items[i], text)
    requires forall j, other :: 0 <= j < i ==> !Carries(items[j], other)
    ensures PrimaryValue(List(items)) == text
    decreases |items|
  {
    if i > 0 {
      NoText(items[0]);
      ListReadsFirst(items[1..], i - 1, text);
    }
  }

  lemma NoText(item: Value)
    requires forall other :: !Carries(item, other)
    ensures !item.Text? && (item.Object? ==> TextAt(item.fields, "value").None?)
  {
    if item.Text? {
      assert Carries(item, item.text);
    }
    if item.Object? && "value" in item.fields && item.fields["value"].Text? {
      assert Carries(item, item.fields["value"].text);
    }
  }

  lemma {:induction false} ListReadsNone(items: seq<Value>)
    requires forall item, other :: item in items ==> !Carries(item, other)
    ensures PrimaryValue(List(items)) == ""
    decreases |items|
  {
    if items != [] {
      assert items[0] in items;
      NoText(items[0]);
      ListReadsNone(items[1..]);
    }
  }

  /** A text is read as itself, an object as its `value`, and anything else as nothing. */
  lemma ValueReads(value: Value, text: string)
    ensures Carries(value, text) ==> PrimaryValue(value) == text
    ensures !value.List? && (forall other :: !Carries(value, other)) ==> PrimaryValue(value) == ""
  {
    if !value.List? && forall other :: !Carries(value, other) {
      NoText(value);
    }
  }

  // ----- PUT -----

  /** What PUT makes of each column, an attribute left out included: no emails clears the address, no active
      means active, no roles keeps the role and an empty one takes it away, an empty displayName is the user name,
      and an empty externalId keeps the subject. */
  lemma PutReadsEach(user: User, attrs: Attributes)
    ensures
      var put := ReplaceUser(user, attrs);
      && put.passwordHash == user.passwordHash && put.provider == user.provider && put.managed == user.managed
      && put.mustChange == user.mustChange
      && (forall name :: At(attrs, "userName") == Text(name) ==> put.username == name)
      && (!At(attrs, "userName").Text? ==> put.username == "")
      && ("emails" !in attrs ==> put.email == "")
      && ("emails" in attrs ==> put.email == PrimaryValue(attrs["emails"]))
      && (forall name :: At(attrs, "displayName") == Text(name) && name != "" ==> put.displayName == name)
      && (!At(attrs, "displayName").Text? || At(attrs, "displayName") == Text("") ==> put.displayName == put.username)
      && ("roles" !in attrs ==> put.role == user.role)
      && ("roles" in attrs && PrimaryValue(attrs["roles"]) != "" ==> put.role == PrimaryValue(attrs["roles"]))
      && ("roles" in attrs && PrimaryValue(attrs["roles"]) == "" ==> put.role == "user")
      && (put.status == "inactive" <==> "active" in attrs && attrs["active"] == Bool(false))
      && (put.status == "active" || put.status == "inactive")
      && (forall id :: At(attrs, "externalId") == Text(id) && id != "" ==> put.subject == id)
      && (!At(attrs, "externalId").Text? || At(attrs, "externalId") == Text("") ==> put.subject == user.subject)
  {
  }

  // ----- PATCH with a path -----

  /** The path names the attribute alone. */
  predicate Plain(op: Operation, attr: string) {
    op.path.Named? && Lower(op.path.attr) == attr && op.path.attrSub == "" && op.path.valueSub == ""
      && op.path.filter.NoFilter?
  }

  /** A sub-attribute this adapter does not store. */
  predicate OtherSub(op: Operation)
    requires op.path.Named?
  {
    var sub := if op.path.valueSub != "" then op.path.valueSub else op.path.attrSub;
    sub != "" && Lower(sub) != Lower("value")
  }

  /** Text as a filter compares it. */
  function Shown(value: Value): string {
    match value
    case Text(text) => text
    case Bool(flag) => if flag then "true" else "false"
    case _ => ""
  }

  /** The fields of the one element GET prints for emails or roles. For an account without a role, which GET
      prints no roles for, a filter still sees one with an empty value. */
  function PrintedFields(user: User, attr: string): Option<Attributes> {
    var printed := Printed(user);
    if attr in printed && printed[attr].List? && |printed[attr].items| == 1 && printed[attr].items[0].Object?
    then Some(printed[attr].items[0].fields)
    else if attr == "roles" then Some(map["value" := Text(""), "primary" := Bool(true)])
    else None
  }

  /** The filter compares an attribute of that element with its value, letter case aside. */
  predicate FilterHits(filter: Filter, fields: Option<Attributes>) {
    filter.Equals? && fields.Some? && Lower(filter.attr) in fields.value
      && Lower(Shown(fields.value[Lower(filter.attr)])) == Lower(filter.value)
  }

  /** The operation names emails or roles, or their value, and its filter, if it has one, selects the element GET
      prints; an add through a filter on an account without an email selects the email it sends. */
  predicate Reaches(user: User, op: Operation, attr: string) {
    && op.path.Named? && Lower(op.path.attr) == attr && !OtherSub(op)
    && (op.path.filter.NoFilter? || FilterHits(op.path.filter, PrintedFields(user, attr))
        || (attr == "emails" && user.email == "" && op.kind.Add?
            && FilterHits(op.path.filter, Some(SentElement(op.value)))))
  }

  function SentElement(value: Value): Attributes {
    map["value" := Text(PrimaryValue(value)), "type" := Text("work"), "primary" := Bool(true)]
  }

  /** The filter names an element that is not there. */
  predicate Misses(user: User, op: Operation, attr: string) {
    op.path.Named? && Lower(op.path.attr) == attr && !OtherSub(op) && !Reaches(user, op, attr)
  }

  lemma PrintedFieldsAre(user: User)
    ensures PrintedFields(user, "emails") == if user.email == "" then None else Some(Element(user.email).fields)
    ensures PrintedFields(user, "roles") == Some(RoleElement(user.role).fields)
  {
  }

  /** A filter sees exactly that. */
  lemma EmailFilterSees(user: User, op: Operation)
    requires WellFormed(op) && op.path.Named? && Lower(op.path.attr) == "emails" && !op.path.filter.NoFilter?
    ensures Selects(op.path.filter, Candidate(user, "emails", op)) <==>
      || FilterHits(op.path.filter, PrintedFields(user, "emails"))
      || (user.email == "" && op.kind.Add? && FilterHits(op.path.filter, Some(SentElement(op.value))))
  {
    PrintedFieldsAre(user);
  }

  lemma RoleFilterSees(user: User, op: Operation)
    requires WellFormed(op) && op.path.Named? && Lower(op.path.attr) == "roles"
    ensures Selects(op.path.filter, Candidate(user, "roles", op)) <==>
      FilterHits(op.path.filter, PrintedFields(user, "roles"))
  {
    PrintedFieldsAre(user);
  }

  lemma OneOperation(user: User, op: Operation)
    requires WellFormed(op)
    ensures PatchUser(user, [op]) == PatchOne(user, op)
  {
    assert [op][1..] == [];
  }

  /** A remove that reaches the email takes it away and nothing else; GET then prints no emails and the rest as
      before. */
  lemma RemoveEmails(user: User, op: Operation)
    requires WellFormed(op) && op.kind.Remove? && Reaches(user, op, "emails")
    ensures PatchUser(user, [op]) == Success(user.(email := ""))
    ensures Printed(user.(email := "")) == Printed(user) - {"emails"}
  {
    OneOperation(user, op);
    if !op.path.filter.NoFilter? {
      EmailFilterSees(user, op);
    }
  }

  /** A remove that reaches the role leaves the role "user" and nothing else changed. */
  lemma RemoveRoles(user: User, op: Operation)
    requires WellFormed(op) && op.kind.Remove? && Reaches(user, op, "roles")
    ensures PatchUser(user, [op]) == Success(user.(role := "user"))
    ensures Printed(user.(role := "user")) == Printed(user)["roles" := List([RoleElement("user")])]
  {
    OneOperation(user, op);
    if !op.path.filter.NoFilter? {
      RoleFilterSees(user, op);
    }
  }

  /** An add or replace that reaches emails or roles stores the value sent and nothing else; an empty role is
      "user". */
  lemma SetEmails(user: User, op: Operation)
    requires WellFormed(op) && !op.kind.Remove? && Reaches(user, op, "emails")
    ensures PatchUser(user, [op]) == Success(user.(email := PrimaryValue(op.value)))
  {
    OneOperation(user, op);
    if !op.path.filter.NoFilter? {
      EmailFilterSees(user, op);
    }
  }

  lemma SetRoles(user: User, op: Operation)
    requires WellFormed(op) && !op.kind.Remove? && Reaches(user, op, "roles")
    ensures PatchUser(user, [op])
         == Success(user.(role := if PrimaryValue(op.value) == "" then "user" else PrimaryValue(op.value)))
  {
    OneOperation(user, op);
    if !op.path.filter.NoFilter? {
      RoleFilterSees(user, op);
    }
  }

  /** A path without filter or sub-attribute into the other stored attributes. A remove empties a display name
      into the user name and an externalId, and leaves the rest alone. */
  lemma RemovePlain(user: User, op: Operation)
    requires WellFormed(op) && op.kind.Remove?
    ensures Plain(op, "displayname") ==> PatchUser(user, [op]) == Success(user.(displayName := user.username))
    ensures Plain(op, "externalid") ==> PatchUser(user, [op]) == Success(user.(subject := ""))
    ensures Plain(op, "username") || Plain(op, "active") || Plain(op, "role") ==> PatchUser(user, [op]) == Success(user)
  {
    OneOperation(user, op);
  }

  /** An add or replace stores the value sent, if it has the attribute's kind, and nothing else. */
  lemma SetPlain(user: User, op: Operation, text: string, flag: bool)
    requires WellFormed(op) && !op.kind.Remove?
    ensures Plain(op, "displayname") && op.value == Text(text) ==>
      PatchUser(user, [op]) == Success(user.(displayName := text))
    ensures Plain(op, "username") && op.value == Text(text) ==>
      PatchUser(user, [op]) == Success(user.(username := text))
    ensures Plain(op, "externalid") && op.value == Text(text) ==>
      PatchUser(user, [op]) == Success(user.(subject := text))
    ensures Plain(op, "active") && op.value == Bool(flag) ==>
      PatchUser(user, [op]) == Success(user.(status := if flag then "active" else "inactive"))
    ensures Plain(op, "role") ==>
      PatchUser(user, [op])
        == Success(user.(role := if PrimaryValue(op.value) == "" then "user" else PrimaryValue(op.value)))
    ensures (Plain(op, "displayname") || Plain(op, "username") || Plain(op, "externalid")) && !op.value.Text? ==>
      PatchUser(user, [op]) == Success(user)
    ensures Plain(op, "active") && !op.value.Bool? ==> PatchUser(user, [op]) == Success(user)
  {
    OneOperation(user, op);
  }

  const STORED := ["displayname", "username", "externalid", "active", "role"]

  /** Everything else changes nothing: a sub-attribute or a filter on an attribute with one value, an attribute
      this adapter does not store, a sub-attribute of emails or roles other than their value, and a path-less
      remove or value that is no object. */
  lemma OthersAreIgnored(user: User, op: Operation)
    requires WellFormed(op)
    requires
      || (op.path.Whole? && (op.kind.Remove? || !op.value.Object?))
      || (op.path.Named? && Lower(op.path.attr) !in ["emails", "roles"]
        && (op.path.attrSub != "" || op.path.valueSub != "" || !op.path.filter.NoFilter?
          || Lower(op.path.attr) !in STORED))
      || (op.path.Named? && Lower(op.path.attr) in ["emails", "roles"] && OtherSub(op))
    ensures PatchUser(user, [op]) == Success(user)
  {
    OneOperation(user, op);
    if op.path.Named? && Lower(op.path.attr) !in ["emails", "roles"] {
      assert Lower(op.path.attr) != "emails" && Lower(op.path.attr) != "roles";
      if Lower(op.path.attr) !in STORED {
        assert STORED[0] in STORED && STORED[1] in STORED && STORED[2] in STORED && STORED[3] in STORED
          && STORED[4] in STORED;
      }
    }
  }

  /** A filter that selects nothing refuses a replace and leaves an add or remove without effect. */
  lemma MissedFilters(user: User, op: Operation, attr: string)
    requires WellFormed(op) && (attr == "emails" || attr == "roles") && Misses(user, op, attr)
    ensures PatchUser(user, [op]) == if op.kind.Replace? then Failure(NoTarget) else Success(user)
  {
    OneOperation(user, op);
    if attr == "emails" {
      EmailFilterSees(user, op);
    } else {
      RoleFilterSees(user, op);
    }
  }

  /** NoTarget is the only refusal, and it is the answer exactly to a replace through a filter that selects
      nothing. */
  lemma RefusedExactlyWithoutTarget(user: User, op: Operation)
    requires WellFormed(op)
    ensures PatchUser(user, [op]).Failure? <==>
      op.kind.Replace? && (Misses(user, op, "emails") || Misses(user, op, "roles"))
    ensures PatchUser(user, [op]).Failure? ==> PatchUser(user, [op]) == Failure(NoTarget)
  {
    OneOperation(user, op);
    if Misses(user, op, "emails") {
      MissedFilters(user, op, "emails");
    } else if Misses(user, op, "roles") {
      MissedFilters(user, op, "roles");
    } else if op.path.Named? {
      EmailFilterOf(user, op);
    }
  }

  lemma EmailFilterOf(user: User, op: Operation)
    requires WellFormed(op) && op.path.Named?
    requires !Misses(user, op, "emails") && !Misses(user, op, "roles")
    ensures PatchOne(user, op).Success?
  {
    if Lower(op.path.attr) == "emails" && !op.path.filter.NoFilter? {
      EmailFilterSees(user, op);
    } else if Lower(op.path.attr) == "roles" && !op.path.filter.NoFilter? {
      RoleFilterSees(user, op);
    }
  }

  // ----- lists of operations, and bodies without a path -----

  /** Operations take effect one after another, up to the first refusal. */
  lemma {:induction false} OperationsInTurn(user: User, first: seq<Operation>, second: seq<Operation>)
    requires forall op :: op in first + second ==> WellFormed(op)
    ensures (forall op :: op in first ==> WellFormed(op)) && forall op :: op in second ==> WellFormed(op)
    ensures PatchUser(user, first).Failure? ==> PatchUser(user, first + second) == PatchUser(user, first)
    ensures PatchUser(user, first).Success? ==>
      PatchUser(user, first + second) == PatchUser(PatchUser(user, first).value, second)
    decreases |first|
  {
    assert forall op :: op in first ==> op in first + second;
    assert forall op :: op in second ==> op in first + second;
    if first == [] {
      assert first + second == second;
    } else {
      assert (first + second)[1..] == first[1..] + second && (first + second)[0] == first[0];
      assert first[0] in first + second && forall op :: op in first[1..] + second ==> op in first + second;
      if PatchOne(user, first[0]).Success? {
        OperationsInTurn(PatchOne(user, first[0]).value, first[1..], second);
      }
    }
  }

  /** The operations a body without a path stands for: each of its keys as a path, in the order of the pass. */
  function KeyOperations(kind: Kind, fields: Attributes, order: seq<string>): (ops: seq<Operation>)
    requires forall k :: k in order ==> k in fields
    ensures forall op :: op in ops ==> WellFormed(op)
  {
    if order == [] then []
    else
      [Operation(kind, Named(order[0], "", "", NoFilter), fields[order[0]], [])]
      + KeyOperations(kind, fields, order[1..])
  }

  lemma {:induction false} KeysInTurn(user: User, kind: Kind, fields: Attributes, order: seq<string>)
    requires !kind.Remove? && forall k :: k in order ==> k in fields
    ensures PatchUser(user, KeyOperations(kind, fields, order)) == Success(ApplyValues(user, fields, order))
    decreases |order|
  {
    if order != [] {
      var ops := KeyOperations(kind, fields, order);
      assert ops[1..] == KeyOperations(kind, fields, order[1..]);
      assert PatchOne(user, ops[0]) == Success(ApplyValue(user, Lower(order[0]), fields[order[0]]));
      KeysInTurn(ApplyValue(user, Lower(order[0]), fields[order[0]]), kind, fields, order[1..]);
    }
  }

  /** A body without a path does what its keys do as paths, one after another. */
  lemma BodyIsItsKeys(user: User, kind: Kind, fields: Attributes, order: seq<string>)
    requires !kind.Remove? && Visits(order, fields)
    ensures PatchUser(user, [Operation(kind, Whole, Object(fields), order)])
         == PatchUser(user, KeyOperations(kind, fields, order))
  {
    OneOperation(user, Operation(kind, Whole, Object(fields), order));
    KeysInTurn(user, kind, fields, order);
  }
}
