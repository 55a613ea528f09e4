/** SCIM user attributes (internal/scim/handler.go): what PUT and PATCH make of an account, and
    what GET prints of it. The model starts after JSON decoding. */
module ScimUser {
  import opened Accounts
  import opened Basics

  datatype Value =
    | Null
    | Bool(flag: bool)
    | Number
    | Text(text: string)
    | List(items: seq<Value>)
    | Object(fields: map<string, Value>)

  type Attributes = map<string, Value>

  datatype Refusal = NoTarget | AdminGrant | Missing | NameInUse | Changed

  datatype Result<T> = Success(value: T) | Failure(refusal: Refusal)

  // ----- reading values -----

  function TextAt(fields: Attributes, key: string): Option<string> {
    if key in fields && fields[key].Text? then Some(fields[key].text) else None
  }

  function FirstValue(items: seq<Value>): string {
    if items == [] then ""
    else if items[0].Object? && TextAt(items[0].fields, "value").Some? then TextAt(items[0].fields, "value").value
    else if items[0].Text? then items[0].text
    else FirstValue(items[1..])
  }

  function PrimaryValue(value: Value): string {
    match value
    case Object(fields) => if TextAt(fields, "value").Some? then TextAt(fields, "value").value else ""
    case List(items) => FirstValue(items)
    case Text(text) => text
    case _ => ""
  }

  /** An absent key reads as nil. */
  function At(attrs: Attributes, key: string): Value {
    if key in attrs then attrs[key] else Null
  }

  /** An empty roles value takes the role away. */
  function RoleValue(value: Value): string {
    if PrimaryValue(value) != "" then PrimaryValue(value) else "user"
  }

  function StringValue(attrs: Attributes, key: string, fallback: string): string {
    var text := TextAt(attrs, key);
    if text.Some? && text.value != "" then text.value else fallback
  }

  function StatusOf(active: bool): string {
    if active then "active" else "inactive"
  }

  function StatusFromActive(attrs: Attributes): string {
    StatusOf(!(At(attrs, "active") == Bool(false)))
  }

  // ----- PUT -----

  /** An omitted roles keeps the role. */
  function ReplaceUser(user: User, attrs: Attributes): User {
    var username := if TextAt(attrs, "userName").Some? then TextAt(attrs, "userName").value else "";
    user.(
      username := username,
      email := PrimaryValue(At(attrs, "emails")),
      displayName := StringValue(attrs, "displayName", username),
      role := if "roles" in attrs then RoleValue(attrs["roles"]) else user.role,
      status := StatusFromActive(attrs),
      subject := StringValue(attrs, "externalId", user.subject))
  }

  // ----- PATCH -----

  datatype Kind = Add | Remove | Replace

  /** A value filter: the one form `attr eq value` the adapter understands, or any other. */
  datatype Filter = NoFilter | Equals(attr: string, value: string) | OtherFilter

  /** `attrSub` is `attr.sub`, `valueSub` is `attr[filter].sub`; empty when absent. */
  datatype Path = Whole | Named(attr: string, attrSub: string, valueSub: string, filter: Filter)

  /** `order` is the order in which this pass over a path-less value visits its keys. */
  datatype Operation = Operation(kind: Kind, path: Path, value: Value, order: seq<string>)

  predicate NoDuplicates(keys: seq<string>) {
    forall i, j :: 0 <= i < j < |keys| ==> keys[i] != keys[j]
  }

  ghost predicate Visits(order: seq<string>, fields: Attributes) {
    NoDuplicates(order) && forall k :: k in order <==> k in fields
  }

  ghost predicate WellFormed(op: Operation) {
    op.path.Whole? && op.value.Object? ==> Visits(op.order, op.value.fields)
  }

  datatype Attribute = Active | DisplayName | UserName | ExternalId | Roles | Emails | Unstored

  /** The stored attribute a lowered key writes. */
  function AttributeOf(key: string): Attribute {
    if key == "active" then Active
    else if key == "displayname" then DisplayName
    else if key == "username" then UserName
    else if key == "externalid" then ExternalId
    else if key == "roles" || key == "role" then Roles
    else if key == "emails" then Emails
    else Unstored
  }

  function Assign(user: User, attribute: Attribute, value: Value): User {
    match attribute
    case Active => if value.Bool? then user.(status := StatusOf(value.flag)) else user
    case DisplayName => if value.Text? then user.(displayName := value.text) else user
    case UserName => if value.Text? then user.(username := value.text) else user
    case ExternalId => if value.Text? then user.(subject := value.text) else user
    case Roles => user.(role := RoleValue(value))
    case Emails => user.(email := PrimaryValue(value))
    case Unstored => user
  }

  function ApplyValue(user: User, key: string, value: Value): User {
    Assign(user, AttributeOf(key), value)
  }

  function ApplyValues(user: User, fields: Attributes, order: seq<string>): User
    requires forall k :: k in order ==> k in fields
    decreases |order|
  {
    if order == [] then user
    else ApplyValues(ApplyValue(user, Lower(order[0]), fields[order[0]]), fields, order[1..])
  }

  /** The single emails or roles element GET would emit, as its printed fields. */
  function StoredElement(user: User, attr: string): Option<map<string, string>> {
    if attr == "roles" then Some(map["value" := user.role, "primary" := "true"])
    else if user.email != "" then Some(map["value" := user.email, "type" := "work", "primary" := "true"])
    else None
  }

  /** An add through a filter that selects nothing may create the element it describes. */
  function Candidate(user: User, attr: string, op: Operation): Option<map<string, string>> {
    var stored := StoredElement(user, attr);
    if stored.None? && op.kind.Add? then
      Some(map["value" := PrimaryValue(op.value), "type" := "work", "primary" := "true"])
    else stored
  }

  predicate Selects(filter: Filter, element: Option<map<string, string>>) {
    filter.Equals? && element.Some? && Lower(filter.attr) in element.value
      && SameFold(element.value[Lower(filter.attr)], filter.value)
  }

  /** An emails or roles path whose filter, if any, selected the stored element. */
  function ApplyMulti(user: User, attr: string, op: Operation): User {
    if !op.kind.Remove? then ApplyValue(user, attr, op.value)
    else if attr == "emails" then user.(email := "")
    else user.(role := "user")
  }

  function ApplySingle(user: User, attr: string, op: Operation): User {
    if !op.kind.Remove? then ApplyValue(user, attr, op.value)
    else if attr == "displayname" then user.(displayName := user.username)
    else if attr == "externalid" then user.(subject := "")
    else user
  }

  function PatchOne(user: User, op: Operation): Result<User>
    requires WellFormed(op)
  {
    if op.path.Whole? then
      Success(if !op.kind.Remove? && op.value.Object? then ApplyValues(user, op.value.fields, op.order) else user)
    else
      var attr := Lower(op.path.attr);
      var sub := if op.path.valueSub != "" then op.path.valueSub else op.path.attrSub;
      if attr != "emails" && attr != "roles" then
        Success(if !op.path.filter.NoFilter? || sub != "" then user else ApplySingle(user, attr, op))
      else if sub != "" && !SameFold(sub, "value") then Success(user)
      else if op.path.filter.NoFilter? || Selects(op.path.filter, Candidate(user, attr, op)) then
        Success(ApplyMulti(user, attr, op))
      else if op.kind.Replace? then Failure(NoTarget)
      else Success(user)
  }

  function PatchUser(user: User, ops: seq<Operation>): Result<User>
    requires forall op :: op in ops ==> WellFormed(op)
    decreases |ops|
  {
    if ops == [] then Success(user)
    else
      match PatchOne(user, ops[0])
      case Success(next) => PatchUser(next, ops[1..])
      case Failure(refusal) => Failure(refusal)
  }

  /** applyUserValues as it runs: one pass over the map in some order. */
  method VisitValues(start: User, fields: Attributes, order: seq<string>) returns (user: User)
    requires Visits(order, fields)
    ensures user == ApplyValues(start, fields, order)
  {
    user := start;
    var i := 0;
    while i < |order|
      invariant 0 <= i <= |order|
      invariant ApplyValues(user, fields, order[i..]) == ApplyValues(start, fields, order)
    {
      user := ApplyValue(user, Lower(order[i]), fields[order[i]]);
      assert order[i..][1..] == order[i + 1..];
      i := i + 1;
    }
  }

  /** applyUserPatch as it runs: operations in order on one record, stopping at the first refusal. */
  method ApplyUserPatch(start: User, ops: seq<Operation>) returns (result: Result<User>)
    requires forall op :: op in ops ==> WellFormed(op)
    ensures result == PatchUser(start, ops)
  {
    var user := start;
    var i := 0;
    while i < |ops|
      invariant 0 <= i <= |ops|
      invariant PatchUser(user, ops[i..]) == PatchUser(start, ops)
    {
      var op := ops[i];
      assert op in ops;
      assert ops[i..][0] == op && ops[i..][1..] == ops[i + 1..];
      i := i + 1;
      if op.path.Whole? {
        if !op.kind.Remove? && op.value.Object? {
          user := VisitValues(user, op.value.fields, op.order);
        }
        continue;
      }
      var attr := Lower(op.path.attr);
      var sub := op.path.valueSub;
      if sub == "" {
        sub := op.path.attrSub;
      }
      if attr != "emails" && attr != "roles" {
        if op.path.filter.NoFilter? && sub == "" {
          user := ApplySingle(user, attr, op);
        }
        continue;
      }
      if sub != "" && !SameFold(sub, "value") {
        continue;
      }
      if !op.path.filter.NoFilter? && !Selects(op.path.filter, Candidate(user, attr, op)) {
        if op.kind.Replace? {
          return Failure(NoTarget);
        }
        continue;
      }
      user := ApplyMulti(user, attr, op);
    }
    result := Success(user);
  }

  // ----- the order of a map is only visible through clashing keys -----

  predicate NoClashingKeys(fields: Attributes) {
    forall a, b :: a in fields && b in fields && a != b ==>
      AttributeOf(Lower(a)) != AttributeOf(Lower(b)) || AttributeOf(Lower(a)).Unstored?
  }

  lemma ValuesCommute(user: User, a: Attribute, va: Value, b: Attribute, vb: Value)
    requires a != b || a.Unstored?
    ensures Assign(Assign(user, a, va), b, vb) == Assign(Assign(user, b, vb), a, va)
  {
  }

  function Without(keys: seq<string>, i: nat): seq<string>
    requires i < |keys|
  {
    keys[..i] + keys[i + 1..]
  }

  lemma {:induction false} VisitFirst(user: User, fields: Attributes, order: seq<string>, i: nat)
    requires i < |order| && NoDuplicates(order) && NoClashingKeys(fields) && forall k :: k in order ==> k in fields
    ensures ApplyValues(user, fields, order)
         == ApplyValues(ApplyValue(user, Lower(order[i]), fields[order[i]]), fields, Without(order, i))
    decreases i
  {
    var k := order[i];
    if i == 0 {
      assert Without(order, 0) == order[1..];
    } else {
      var first := order[0];
      VisitFirst(ApplyValue(user, Lower(first), fields[first]), fields, order[1..], i - 1);
      ValuesCommute(user, AttributeOf(Lower(first)), fields[first], AttributeOf(Lower(k)), fields[k]);
      assert Without(order, i)[0] == first && Without(order, i)[1..] == Without(order[1..], i - 1);
    }
  }

  /** Every pass over a body whose keys name different attributes gives the same account. */
  lemma {:induction false} OrderIsInvisible(user: User, fields: Attributes, some: seq<string>, other: seq<string>)
    requires NoDuplicates(some) && NoDuplicates(other) && (forall k :: k in some <==> k in other)
    requires NoClashingKeys(fields) && forall k :: k in some ==> k in fields
    ensures forall k :: k in other ==> k in fields
    ensures ApplyValues(user, fields, some) == ApplyValues(user, fields, other)
    decreases |some|
  {
    if some == [] {
      if other != [] {
        HasMember(other);
      }
    } else {
      var k := some[0];
      assert k in other;
      var i :| 0 <= i < |other| && other[i] == k;
      VisitFirst(user, fields, other, i);
      SplitMembers(some, 0);
      SplitMembers(other, i);
      assert Without(some, 0) == some[1..];
      OrderIsInvisible(ApplyValue(user, Lower(k), fields[k]), fields, some[1..], Without(other, i));
    }
  }

  lemma HasMember(keys: seq<string>)
    requires keys != []
    ensures exists k :: k in keys
  {
    assert keys[0] in keys;
  }

  lemma SplitMembers(keys: seq<string>, i: nat)
    requires i < |keys| && NoDuplicates(keys)
    ensures NoDuplicates(Without(keys, i))
    ensures forall k :: k in Without(keys, i) <==> k in keys && k != keys[i]
  {
    forall k | k in keys && k != keys[i] ensures k in Without(keys, i) {
      var j :| 0 <= j < |keys| && keys[j] == k;
      assert Without(keys, i)[if j < i then j else j - 1] == k;
    }
  }

  // ----- GET -----

  function Element(value: string): Value {
    Object(map["value" := Text(value), "type" := Text("work"), "primary" := Bool(true)])
  }

  function RoleElement(value: string): Value {
    Object(map["value" := Text(value), "primary" := Bool(true)])
  }

  /** The attributes GET prints. */
  function Printed(user: User): Attributes {
    var base := map["userName" := Text(user.username), "displayName" := Text(user.displayName),
      "active" := Bool(user.status == "active")];
    var mailed := if user.email != "" then base["emails" := List([Element(user.email)])] else base;
    if user.role != "" then mailed["roles" := List([RoleElement(user.role)])] else mailed
  }

  /** The resource put back: the attributes and the externalId GET answered. */
  function PutBack(user: User): Attributes {
    Printed(user)["externalId" := Text(user.subject)]
  }

  lemma EmailReadsBack(user: User)
    ensures PrimaryValue(At(PutBack(user), "emails")) == user.email
  {
    assert PrimaryValue(List([Element(user.email)])) == user.email;
  }

  lemma RoleReadsBack(user: User)
    ensures (if "roles" in PutBack(user) then RoleValue(PutBack(user)["roles"]) else user.role) == user.role
  {
    assert PrimaryValue(List([RoleElement(user.role)])) == user.role;
  }

  lemma PutBackReads(user: User)
    ensures ReplaceUser(user, PutBack(user)) == user.(
      displayName := if user.displayName != "" then user.displayName else user.username,
      status := StatusOf(user.status == "active"))
  {
    EmailReadsBack(user);
    RoleReadsBack(user);
    assert At(PutBack(user), "active") == Bool(user.status == "active");
    assert TextAt(PutBack(user), "userName") == Some(user.username);
  }

  /** Putting back what GET printed leaves the account as it is exactly when the display name is
      not one PUT fills in and the status is one of the two that `active` can say. */
  lemma PrintedReadsBack(user: User)
    ensures ReplaceUser(user, PutBack(user)) == user
      <==> (user.displayName != "" || user.username == "") && (user.status == "active" || user.status == "inactive")
  {
    PutBackReads(user);
  }

  /** A body that names each attribute once, with values of the right kind. */
  predicate Complete(fields: Attributes) {
    && NoClashingKeys(fields)
    && (forall k :: k in ["userName", "displayName", "externalId"] ==>
      k in fields && fields[k].Text? && fields[k].text != "")
    && "active" in fields && fields["active"].Bool? && "roles" in fields && "emails" in fields
  }

  /** A pass may as well visit `keys` first. */
  lemma {:induction false} VisitThese(user: User, fields: Attributes, order: seq<string>, keys: seq<string>)
    returns (rest: seq<string>)
    requires NoDuplicates(order) && NoDuplicates(keys) && NoClashingKeys(fields)
    requires forall k :: k in order ==> k in fields
    requires forall k :: k in keys ==> k in order
    ensures NoDuplicates(rest) && forall k :: k in rest <==> k in order && k !in keys
    ensures ApplyValues(user, fields, order) == ApplyValues(ApplyValues(user, fields, keys), fields, rest)
    decreases |keys|
  {
    if keys == [] {
      rest := order;
    } else {
      var k := keys[0];
      assert k in keys;
      var i :| 0 <= i < |order| && order[i] == k;
      VisitFirst(user, fields, order, i);
      SplitMembers(order, i);
      SplitMembers(keys, 0);
      assert Without(keys, 0) == keys[1..];
      rest := VisitThese(ApplyValue(user, Lower(k), fields[k]), fields, Without(order, i), keys[1..]);
    }
  }

  lemma {:induction false} UnstoredChangesNothing(user: User, fields: Attributes, order: seq<string>)
    requires forall k :: k in order ==> k in fields && AttributeOf(Lower(k)).Unstored?
    ensures ApplyValues(user, fields, order) == user
    decreases |order|
  {
    if order != [] {
      assert order[0] in order;
      UnstoredChangesNothing(user, fields, order[1..]);
    }
  }

  const NAMES := ["userName", "displayName", "externalId", "active", "roles", "emails"]

  lemma NamesAreAttributes()
    ensures AttributeOf(Lower(NAMES[0])) == UserName && AttributeOf(Lower(NAMES[1])) == DisplayName
    ensures AttributeOf(Lower(NAMES[2])) == ExternalId && AttributeOf(Lower(NAMES[3])) == Active
    ensures AttributeOf(Lower(NAMES[4])) == Roles && AttributeOf(Lower(NAMES[5])) == Emails
  {
    assert Lower("userName") == "username" && Lower("displayName") == "displayname";
    assert Lower("externalId") == "externalid" && Lower("active") == "active";
    assert Lower("roles") == "roles" && Lower("emails") == "emails";
  }

  /** The pass over NAMES, from its `i`th name on. */
  lemma NameNext(user: User, fields: Attributes, i: nat)
    requires Complete(fields) && i < 6
    ensures ApplyValues(user, fields, NAMES[i..])
         == ApplyValues(ApplyValue(user, Lower(NAMES[i]), fields[NAMES[i]]), fields, NAMES[i + 1..])
  {
    NamesPresent(fields);
    assert NAMES[i..][0] == NAMES[i] && NAMES[i..][1..] == NAMES[i + 1..];
  }

  function Assigned(user: User, fields: Attributes): User
    requires Complete(fields)
  {
    var u3 := Assign(Assign(Assign(user, UserName, fields["userName"]), DisplayName, fields["displayName"]),
      ExternalId, fields["externalId"]);
    Assign(Assign(Assign(u3, Active, fields["active"]), Roles, fields["roles"]), Emails, fields["emails"])
  }

  lemma AssignedIsReplaced(user: User, fields: Attributes)
    requires Complete(fields)
    ensures Assigned(user, fields) == ReplaceUser(user, fields)
  {
    NamesPresent(fields);
  }

  lemma FirstNames(user: User, fields: Attributes)
    requires Complete(fields)
    ensures ApplyValues(user, fields, NAMES)
         == ApplyValues(Assign(Assign(Assign(user, UserName, fields["userName"]), DisplayName, fields["displayName"]),
                               ExternalId, fields["externalId"]), fields, NAMES[3..])
  {
    NamesAreAttributes();
    var u1 := Assign(user, UserName, fields["userName"]);
    var u2 := Assign(u1, DisplayName, fields["displayName"]);
    assert NAMES[0..] == NAMES;
    NameNext(user, fields, 0);
    NameNext(u1, fields, 1);
    NameNext(u2, fields, 2);
  }

  lemma LastNames(user: User, fields: Attributes)
    requires Complete(fields)
    ensures ApplyValues(user, fields, NAMES[3..])
         == Assign(Assign(Assign(user, Active, fields["active"]), Roles, fields["roles"]), Emails, fields["emails"])
  {
    NamesAreAttributes();
    var u4 := Assign(user, Active, fields["active"]);
    var u5 := Assign(u4, Roles, fields["roles"]);
    assert NAMES[6..] == [];
    NameNext(user, fields, 3);
    NameNext(u4, fields, 4);
    NameNext(u5, fields, 5);
  }

  lemma NamesInOrder(user: User, fields: Attributes)
    requires Complete(fields)
    ensures ApplyValues(user, fields, NAMES) == ReplaceUser(user, fields)
  {
    FirstNames(user, fields);
    LastNames(Assign(Assign(Assign(user, UserName, fields["userName"]), DisplayName, fields["displayName"]),
                     ExternalId, fields["externalId"]), fields);
    AssignedIsReplaced(user, fields);
  }

  lemma NamesPresent(fields: Attributes)
    requires Complete(fields)
    ensures NoDuplicates(NAMES) && forall k :: k in NAMES ==> k in fields
  {
    assert "userName" in ["userName", "displayName", "externalId"];
    assert "displayName" in ["userName", "displayName", "externalId"];
    assert "externalId" in ["userName", "displayName", "externalId"];
  }

  lemma OthersAreUnstored(fields: Attributes, k: string)
    requires Complete(fields) && k in fields && k !in NAMES
    ensures AttributeOf(Lower(k)).Unstored?
  {
    NamesPresent(fields);
    NamesAreAttributes();
    forall i | 0 <= i < 6
      ensures AttributeOf(Lower(NAMES[i])) != AttributeOf(Lower(k)) || AttributeOf(Lower(k)).Unstored?
    {
      assert NAMES[i] in NAMES;
    }
  }

  /** PATCH without a path and PUT read a complete body alike, in whatever order PATCH visits it. */
  lemma PatchReadsLikePut(user: User, fields: Attributes, kind: Kind, order: seq<string>)
    requires Complete(fields) && Visits(order, fields) && !kind.Remove?
    ensures PatchUser(user, [Operation(kind, Whole, Object(fields), order)]) == Success(ReplaceUser(user, fields))
  {
    var op := Operation(kind, Whole, Object(fields), order);
    assert [op][1..] == [];
    assert PatchUser(user, [op]) == Success(ApplyValues(user, fields, order));
    NamesPresent(fields);
    var rest := VisitThese(user, fields, order, NAMES);
    NamesInOrder(user, fields);
    forall k | k in rest ensures AttributeOf(Lower(k)).Unstored? {
      OthersAreUnstored(fields, k);
    }
    UnstoredChangesNothing(ReplaceUser(user, fields), fields, rest);
  }

  // ----- one write through the store -----

  predicate AdminRefused(oldRole: string, newRole: string, allowAdmin: bool) {
    newRole == "admin" && oldRole != "admin" && !allowAdmin
  }

  /** The compare-and-swap `update` sends for the row it read. */
  function WriteOf(id: string, row: User, changed: User): Write {
    var sent := if row.provider == "scim" then changed else changed.(subject := row.subject);
    ScimUpdate(id, sent, row.role, row.status, row.subject)
  }

  /** A PUT with nothing running beside it. */
  function PutAlone(db: Db, id: string, attrs: Attributes, allowAdmin: bool): (Db, Result<User>) {
    if id !in db.users || !db.users[id].managed then (db, Failure(Missing))
    else
      var row := db.users[id];
      var changed := ReplaceUser(row, attrs);
      if AdminRefused(row.role, changed.role, allowAdmin) then (db, Failure(AdminGrant))
      else
        var (after, outcome) := Apply(db, WriteOf(id, row, changed));
        if outcome.Ok? then (after, Success(after.users[id]))
        else (db, Failure(NameInUse))
  }

  /** Putting back the resource a GET returned is always accepted, and leaves every table as it
      is, sessions included, exactly under the condition of PrintedReadsBack. */
  lemma PutBackChangesNothing(db: Db, id: string, allowAdmin: bool)
    requires id in db.users && db.users[id].managed && UniqueNames(db.users)
    ensures
      var row := db.users[id];
      var (after, result) := PutAlone(db, id, PutBack(row), allowAdmin);
      && result.Success?
      && (after == db <==>
        (row.displayName != "" || row.username == "") && (row.status == "active" || row.status == "inactive"))
  {
    var row := db.users[id];
    var changed := ReplaceUser(row, PutBack(row));
    var w := WriteOf(id, row, changed);
    PrintedReadsBack(row);
    PrintedKeepsNameAndRole(row);
    assert Rewrite(row, w) == changed;
    assert !NameRefused(db.users, w.row.username, id);
    var after := Apply(db, w).0;
    assert after.users == db.users[id := changed];
    if changed == row {
      assert after.users == db.users;
    } else {
      assert after.users[id] != db.users[id];
    }
  }

  lemma PrintedKeepsNameAndRole(user: User)
    ensures
      var changed := ReplaceUser(user, PutBack(user));
      changed == user.(displayName := changed.displayName, status := changed.status)
  {
    assert PrimaryValue(List([Element(user.email)])) == user.email;
    assert PrimaryValue(List([RoleElement(user.role)])) == user.role;
  }

  /** Applying an accepted PUT again changes nothing and answers the same. */
  lemma PutTwiceIsPutOnce(db: Db, id: string, attrs: Attributes, allowAdmin: bool)
    requires PutAlone(db, id, attrs, allowAdmin).1.Success?
    ensures
      var (once, result) := PutAlone(db, id, attrs, allowAdmin);
      PutAlone(once, id, attrs, allowAdmin) == (once, result)
  {
    var row := db.users[id];
    var once := PutAlone(db, id, attrs, allowAdmin).0;
    var stored := once.users[id];
    var w := WriteOf(id, row, ReplaceUser(row, attrs));
    assert stored == Rewrite(row, w) && once.users == db.users[id := stored];
    var again := WriteOf(id, stored, ReplaceUser(stored, attrs));
    assert Rewrite(stored, again) == stored;
    assert !NameRefused(once.users, stored.username, id);
    assert once.users[id := stored] == once.users;
  }
}
