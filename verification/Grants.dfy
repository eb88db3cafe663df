/**
 * The authorization a client holds, its wire form inside a token, and the two projections between
 * them (`auth/Grant`, `auth/Authorization`, `token/GrantsClaim`, and `TokenIssuer.scopeOf`).
 */
module Grants {
  import opened Options
  import opened Text

  datatype KeyOperation = GENERATE_DATA_KEY | ENCRYPT | DECRYPT | RE_ENCRYPT

  function Name(op: KeyOperation): string {
    match op
    case GENERATE_DATA_KEY => "GENERATE_DATA_KEY"
    case ENCRYPT => "ENCRYPT"
    case DECRYPT => "DECRYPT"
    case RE_ENCRYPT => "RE_ENCRYPT"
  }

  /** `KeyOperation.valueOf`: the constant with exactly this name. */
  function ValueOf(name: string): Option<KeyOperation> {
    if name == "GENERATE_DATA_KEY" then Some(GENERATE_DATA_KEY)
    else if name == "ENCRYPT" then Some(ENCRYPT)
    else if name == "DECRYPT" then Some(DECRYPT)
    else if name == "RE_ENCRYPT" then Some(RE_ENCRYPT)
    else None
  }

  lemma NameInverse(op: KeyOperation, name: string)
    ensures ValueOf(Name(op)) == Some(op)
    ensures ValueOf(name).Some? ==> Name(ValueOf(name).value) == name
  {
    assert "ENCRYPT"[0] == 'E' && "DECRYPT"[0] == 'D';
  }

  predicate Distinct<T(==)>(s: seq<T>) {
    forall i, j :: 0 <= i < j < |s| ==> s[i] != s[j]
  }

  /** What Java does with a value: hands it over, or throws. */
  datatype Outcome<+T> = Ok(value: T) | IllegalArgument | NullPointer

  /** A grant that passed its constructor: `operations` is a linked set, so ordered and distinct. */
  datatype GrantRecord = GrantRecord(keyGroup: string, operations: seq<KeyOperation>)
  type Grant = g: GrantRecord | !IsBlank(g.keyGroup) && g.operations != [] && Distinct(g.operations)
    witness GrantRecord("g", [ENCRYPT])

  datatype Authorization = Authorization(controlPlane: bool, grants: seq<Grant>)

  const NO_GRANTS := Authorization(false, [])

  /** The JSON shape; every reference a parser can leave null is optional. */
  datatype Group = Group(keyGroup: Option<string>, operations: Option<seq<Option<string>>>)
  datatype GrantsClaim = GrantsClaim(control: bool, groups: Option<seq<Option<Group>>>)

  // ---- The specification of the two projections ----

  function NamesOf(ops: seq<KeyOperation>): (names: seq<Option<string>>)
    ensures |names| == |ops|
  {
    seq(|ops|, i requires 0 <= i < |ops| => Some(Name(ops[i])))
  }

  function GroupOf(g: Grant): Option<Group> {
    Some(Group(Some(g.keyGroup), Some(NamesOf(g.operations))))
  }

  function GroupsOf(grants: seq<Grant>): (groups: seq<Option<Group>>)
    ensures |groups| == |grants|
  {
    seq(|grants|, i requires 0 <= i < |grants| => GroupOf(grants[i]))
  }

  function ClaimOf(a: Authorization): GrantsClaim {
    GrantsClaim(a.controlPlane, Some(GroupsOf(a.grants)))
  }

  /** `LinkedHashSet.add`. */
  function Add<T(==)>(s: seq<T>, x: T): seq<T> { if x in s then s else s + [x] }

  function CollectOps(names: seq<Option<string>>): (r: Outcome<seq<KeyOperation>>)
    ensures r.Ok? ==> Distinct(r.value)
  {
    if names == [] then Ok([])
    else
      var n := |names| - 1;
      match CollectOps(names[..n])
      case Ok(ops) =>
        (match names[n]
         case None => NullPointer
         case Some(name) =>
           match ValueOf(name)
           case None => IllegalArgument
           case Some(op) => Ok(Add(ops, op)))
      case e => e
  }

  /** The `Grant` constructor. */
  function MakeGrant(keyGroup: Option<string>, ops: seq<KeyOperation>): Outcome<Grant>
    requires Distinct(ops)
  {
    if keyGroup == None || IsBlank(keyGroup.value) then IllegalArgument
    else if ops == [] then IllegalArgument
    else Ok(GrantRecord(keyGroup.value, ops))
  }

  function GrantOf(group: Option<Group>): Outcome<Grant> {
    match group
    case None => NullPointer
    case Some(g) =>
      match CollectOps(if g.operations.Some? then g.operations.value else [])
      case Ok(ops) => MakeGrant(g.keyGroup, ops)
      case IllegalArgument => IllegalArgument
      case NullPointer => NullPointer
  }

  function CollectGrants(groups: seq<Option<Group>>): Outcome<seq<Grant>> {
    if groups == [] then Ok([])
    else
      var n := |groups| - 1;
      match CollectGrants(groups[..n])
      case Ok(grants) =>
        (match GrantOf(groups[n])
         case Ok(g) => Ok(grants + [g])
         case IllegalArgument => IllegalArgument
         case NullPointer => NullPointer)
      case e => e
  }

  function AuthorizationOf(c: GrantsClaim): Outcome<Authorization> {
    match CollectGrants(if c.groups.Some? then c.groups.value else [])
    case Ok(grants) => Ok(Authorization(c.control, grants))
    case IllegalArgument => IllegalArgument
    case NullPointer => NullPointer
  }

  // ---- The source's loops ----

  method From(authorization: Authorization) returns (claim: GrantsClaim)
    ensures claim == ClaimOf(authorization) && Spells(claim, authorization)
  {
    ClaimSpells(authorization);
    var groups: seq<Option<Group>> := [];
    for i := 0 to |authorization.grants|
      invariant groups == GroupsOf(authorization.grants)[..i]
    {
      var grant := authorization.grants[i];
      var ops: seq<Option<string>> := [];
      for j := 0 to |grant.operations|
        invariant ops == NamesOf(grant.operations)[..j]
      {
        ops := ops + [Some(Name(grant.operations[j]))];
      }
      assert NamesOf(grant.operations)[..|grant.operations|] == NamesOf(grant.operations);
      groups := groups + [Some(Group(Some(grant.keyGroup), Some(ops)))];
    }
    assert GroupsOf(authorization.grants)[..|authorization.grants|] == GroupsOf(authorization.grants);
    claim := GrantsClaim(authorization.controlPlane, Some(groups));
  }

  method ToAuthorization(claim: GrantsClaim) returns (r: Outcome<Authorization>)
    ensures r == AuthorizationOf(claim)
    ensures r.Ok? ==> Spells(NormalClaim(claim), r.value)
  {
    ReadingSpells(claim);
    var grants: seq<Grant> := [];
    if claim.groups.Some? {
      var groups := claim.groups.value;
      for i := 0 to |groups|
        invariant CollectGrants(groups[..i]) == Ok(grants)
      {
        GrantsStep(groups, i);
        if groups[i] == None {
          return NullPointer;
        }
        var group := groups[i].value;
        var ops: seq<KeyOperation> := [];
        if group.operations.Some? {
          var names := group.operations.value;
          for j := 0 to |names|
            invariant CollectOps(names[..j]) == Ok(ops)
          {
            OpsStep(names, j);
            if names[j] == None {
              return NullPointer;
            }
            var op := ValueOf(names[j].value);
            if op == None {
              return IllegalArgument;
            }
            ops := Add(ops, op.value);
          }
          assert names[..|names|] == names;
        }
        var grant := MakeGrant(group.keyGroup, ops);
        if !grant.Ok? {
          return IllegalArgument;
        }
        grants := grants + [grant.value];
      }
      assert groups[..|groups|] == groups;
    }
    r := Ok(Authorization(claim.control, grants));
  }

  /** One more name is added, or throws for the whole list. */
  lemma OpsStep(names: seq<Option<string>>, j: nat)
    requires j < |names| && CollectOps(names[..j]).Ok?
    ensures var ops := CollectOps(names[..j]).value;
      if names[j] == None then CollectOps(names) == NullPointer
      else if ValueOf(names[j].value) == None then CollectOps(names) == IllegalArgument
      else CollectOps(names[..j + 1]) == Ok(Add(ops, ValueOf(names[j].value).value))
  {
    assert names[..j + 1][..j] == names[..j];
    if names[j] == None || ValueOf(names[j].value) == None {
      CollectOpsFails(names, j + 1);
    }
  }

  /** One more group is added, or throws for the whole list. */
  lemma GrantsStep(groups: seq<Option<Group>>, i: nat)
    requires i < |groups| && CollectGrants(groups[..i]).Ok?
    ensures match GrantOf(groups[i])
      case Ok(g) => CollectGrants(groups[..i + 1]) == Ok(CollectGrants(groups[..i]).value + [g])
      case IllegalArgument => CollectGrants(groups) == IllegalArgument
      case NullPointer => CollectGrants(groups) == NullPointer
  {
    assert groups[..i + 1][..i] == groups[..i];
    if !GrantOf(groups[i]).Ok? {
      CollectGrantsFails(groups, i + 1);
    }
  }

  /** The first element that throws decides the outcome. */
  lemma {:induction false} CollectOpsFails(names: seq<Option<string>>, n: nat)
    requires n <= |names| && !CollectOps(names[..n]).Ok?
    ensures CollectOps(names) == CollectOps(names[..n])
    decreases |names|
  {
    if n == |names| {
      assert names[..n] == names;
    } else {
      var last := |names| - 1;
      assert names[..last][..n] == names[..n];
      CollectOpsFails(names[..last], n);
    }
  }

  lemma {:induction false} CollectGrantsFails(groups: seq<Option<Group>>, n: nat)
    requires n <= |groups| && !CollectGrants(groups[..n]).Ok?
    ensures CollectGrants(groups) == CollectGrants(groups[..n])
    decreases |groups|
  {
    if n == |groups| {
      assert groups[..n] == groups;
    } else {
      var last := |groups| - 1;
      assert groups[..last][..n] == groups[..n];
      CollectGrantsFails(groups[..last], n);
    }
  }

  // ---- Grants survive the wire ----

  lemma {:induction false} CollectNames(ops: seq<KeyOperation>)
    requires Distinct(ops)
    ensures CollectOps(NamesOf(ops)) == Ok(ops)
  {
    if ops != [] {
      var n := |ops| - 1;
      CollectNames(ops[..n]);
      assert NamesOf(ops)[..n] == NamesOf(ops[..n]);
      NameInverse(ops[n], "");
      assert ops == ops[..n] + [ops[n]];
    }
  }

  lemma GrantOfGroup(g: Grant)
    ensures GrantOf(GroupOf(g)) == Ok(g)
  {
    CollectNames(g.operations);
  }

  lemma {:induction false} CollectGroups(grants: seq<Grant>)
    ensures CollectGrants(GroupsOf(grants)) == Ok(grants)
    decreases |grants|
  {
    if grants == [] {
      assert GroupsOf(grants) == [];
    } else {
      var n := |grants| - 1;
      CollectGroups(grants[..n]);
      CollectGroupsStep(grants, grants[..n], grants[n]);
    }
  }

  lemma CollectGroupsStep(grants: seq<Grant>, before: seq<Grant>, last: Grant)
    requires grants == before + [last] && CollectGrants(GroupsOf(before)) == Ok(before)
    ensures CollectGrants(GroupsOf(grants)) == Ok(grants)
  {
    GrantOfGroup(last);
    CollectSnoc(GroupsOf(before), GroupOf(last));
    assert GroupsOf(grants) == GroupsOf(before) + [GroupOf(last)];
  }

  lemma GroupsSnoc(grants: seq<Grant>)
    requires grants != []
    ensures var n := |grants| - 1; GroupsOf(grants) == GroupsOf(grants[..n]) + [GroupOf(grants[n])]
  {
  }

  lemma CollectSnoc(groups: seq<Option<Group>>, group: Option<Group>)
    requires CollectGrants(groups).Ok? && GrantOf(group).Ok?
    ensures CollectGrants(groups + [group]) == Ok(CollectGrants(groups).value + [GrantOf(group).value])
  {
    assert (groups + [group])[..|groups|] == groups;
  }

  lemma GrantsSurviveTheWire(a: Authorization)
    ensures AuthorizationOf(ClaimOf(a)) == Ok(a)
  {
    CollectGroups(a.grants);
  }

  // ---- The published words ----

  /** The word that stands for an operation in a claim. */
  predicate Spelled(op: KeyOperation, word: string) {
    match op
    case GENERATE_DATA_KEY => word == "GENERATE_DATA_KEY"
    case ENCRYPT => word == "ENCRYPT"
    case DECRYPT => word == "DECRYPT"
    case RE_ENCRYPT => word == "RE_ENCRYPT"
  }

  ghost predicate GroupSpells(group: Option<Group>, g: Grant) {
    && group.Some? && group.value.keyGroup == Some(g.keyGroup)
    && group.value.operations.Some? && |group.value.operations.value| == |g.operations|
    && forall j :: 0 <= j < |g.operations| ==>
         var word := group.value.operations.value[j]; word.Some? && Spelled(g.operations[j], word.value)
  }

  /** The claim says, group by group and word by word, what the authorization grants. */
  ghost predicate Spells(c: GrantsClaim, a: Authorization) {
    && c.control == a.controlPlane
    && c.groups.Some? && |c.groups.value| == |a.grants|
    && forall i :: 0 <= i < |a.grants| ==> GroupSpells(c.groups.value[i], a.grants[i])
  }

  lemma NameIsSpelled(op: KeyOperation)
    ensures Spelled(op, Name(op))
  {
  }

  lemma ClaimSpells(a: Authorization)
    ensures Spells(ClaimOf(a), a)
  {
    forall i | 0 <= i < |a.grants| ensures GroupSpells(GroupsOf(a.grants)[i], a.grants[i]) {
      GroupIsSpelled(a.grants[i]);
    }
  }

  lemma GroupIsSpelled(g: Grant)
    ensures GroupSpells(GroupOf(g), g)
  {
    forall j | 0 <= j < |g.operations| ensures Spelled(g.operations[j], NamesOf(g.operations)[j].value) {
      NameIsSpelled(g.operations[j]);
    }
  }

  /** Only one claim says what an authorization grants, so reading it gives the authorization. */
  lemma SpellsExactly(c: GrantsClaim, a: Authorization)
    ensures Spells(c, a) <==> c == ClaimOf(a)
    ensures Spells(c, a) ==> AuthorizationOf(c) == Ok(a)
  {
    ClaimSpells(a);
    GrantsSurviveTheWire(a);
    if Spells(c, a) {
      forall i | 0 <= i < |a.grants| ensures c.groups.value[i] == GroupsOf(a.grants)[i] {
        OneSpelling(c.groups.value[i], a.grants[i]);
      }
      assert c.groups.value == GroupsOf(a.grants);
    }
  }

  lemma OneSpelling(group: Option<Group>, g: Grant)
    requires GroupSpells(group, g)
    ensures group == GroupOf(g)
  {
    forall j | 0 <= j < |g.operations| ensures group.value.operations.value[j] == NamesOf(g.operations)[j] {
      NameIsSpelled(g.operations[j]);
    }
    assert group.value.operations.value == NamesOf(g.operations);
  }

  /** What is read from an accepted claim is what its words say, each operation where it first occurs. */
  lemma ReadingSpells(c: GrantsClaim)
    ensures AuthorizationOf(c).Ok? ==> Spells(NormalClaim(c), AuthorizationOf(c).value)
  {
    if AuthorizationOf(c).Ok? {
      RewritingNormalizes(c);
      ClaimSpells(AuthorizationOf(c).value);
    }
  }

  /** Group by group: the same name, and exactly the operations whose words occur. */
  lemma ReadingMeans(c: GrantsClaim, i: nat, op: KeyOperation)
    requires AuthorizationOf(c).Ok? && c.groups.Some? && i < |c.groups.value|
    ensures var a, group := AuthorizationOf(c).value, c.groups.value[i];
      && a.controlPlane == c.control && |a.grants| == |c.groups.value|
      && group.Some? && group.value.keyGroup == Some(a.grants[i].keyGroup) && group.value.operations.Some?
      && (op in a.grants[i].operations <==>
          exists word :: Some(word) in group.value.operations.value && Spelled(op, word))
  {
    ReadingSpells(c);
    RejectsExactlyBadClaims(c);
    var g, group := AuthorizationOf(c).value.grants[i], c.groups.value[i];
    assert GoodGroup(group) && GroupSpells(NormalGroup(group), g);
    NamesMean(group.value.operations.value, g.operations, op);
  }

  lemma NamesMean(names: seq<Option<string>>, ops: seq<KeyOperation>, op: KeyOperation)
    requires |FirstOccurrences(names)| == |ops|
    requires forall j :: 0 <= j < |ops| ==>
      var word := FirstOccurrences(names)[j]; word.Some? && Spelled(ops[j], word.value)
    ensures op in ops <==> exists word :: Some(word) in names && Spelled(op, word)
  {
    var kept := FirstOccurrences(names);
    if op in ops {
      var j :| 0 <= j < |ops| && ops[j] == op;
      FirstOccurrencesMembers(names, kept[j]);
      assert Spelled(op, kept[j].value);
    }
    if word :| Some(word) in names && Spelled(op, word) {
      FirstOccurrencesMembers(names, Some(word));
      var j :| 0 <= j < |kept| && kept[j] == Some(word);
      SpelledOnce(ops[j], op, word);
    }
  }

  /** Different operations have different words. */
  lemma SpelledOnce(a: KeyOperation, b: KeyOperation, word: string)
    requires Spelled(a, word) && Spelled(b, word)
    ensures a == b
  {
    assert "ENCRYPT"[0] == 'E' && "DECRYPT"[0] == 'D';
  }

  // ---- Exactly which claims are rejected ----

  predicate GoodName(name: Option<string>) { name.Some? && ValueOf(name.value).Some? }

  predicate GoodGroup(group: Option<Group>) {
    && group.Some?
    && group.value.keyGroup.Some? && !IsBlank(group.value.keyGroup.value)
    && group.value.operations.Some? && group.value.operations.value != []
    && GoodNames(group.value.operations.value)
  }

  predicate GoodNames(names: seq<Option<string>>) { forall i :: 0 <= i < |names| ==> GoodName(names[i]) }

  predicate GoodGroups(groups: seq<Option<Group>>) { forall i :: 0 <= i < |groups| ==> GoodGroup(groups[i]) }

  predicate GoodClaim(c: GrantsClaim) {
    c.groups.Some? ==> GoodGroups(c.groups.value)
  }

  lemma {:induction false} CollectOpsOk(names: seq<Option<string>>)
    ensures CollectOps(names).Ok? <==> GoodNames(names)
    ensures CollectOps(names).Ok? ==> (CollectOps(names).value == [] <==> names == [])
  {
    if names != [] {
      var n := |names| - 1;
      CollectOpsOk(names[..n]);
      assert GoodNames(names) <==> GoodNames(names[..n]) && GoodName(names[n]) by {
        assert names == names[..n] + [names[n]];
      }
    }
  }

  lemma GrantOfOk(group: Option<Group>)
    ensures GrantOf(group).Ok? <==> GoodGroup(group)
  {
    if group.Some? {
      CollectOpsOk(if group.value.operations.Some? then group.value.operations.value else []);
    }
  }

  lemma GoodGroupsSnoc(groups: seq<Option<Group>>)
    requires groups != []
    ensures var n := |groups| - 1; GoodGroups(groups) <==> GoodGroups(groups[..n]) && GoodGroup(groups[n])
  {
    var n := |groups| - 1;
    assert groups == groups[..n] + [groups[n]];
  }

  lemma {:induction false} CollectGrantsOk(groups: seq<Option<Group>>)
    ensures CollectGrants(groups).Ok? <==> GoodGroups(groups)
  {
    if groups != [] {
      var n := |groups| - 1;
      CollectGrantsOk(groups[..n]);
      GrantOfOk(groups[n]);
      GoodGroupsSnoc(groups);
    }
  }

  /** A claim is accepted exactly when each group is named, non-empty, and names known operations. */
  lemma RejectsExactlyBadClaims(c: GrantsClaim)
    ensures AuthorizationOf(c).Ok? <==> GoodClaim(c)
  {
    CollectGrantsOk(if c.groups.Some? then c.groups.value else []);
  }

  /** The name at place j is the first that is no operation's, and it is a null. */
  ghost predicate NullNameAt(names: seq<Option<string>>, j: nat) {
    j < |names| && names[j] == None && GoodNames(names[..j])
  }

  ghost predicate NullNameFirst(names: seq<Option<string>>) { exists j: nat :: NullNameAt(names, j) }

  /** The group is null, or its first bad name is. */
  ghost predicate NullFault(group: Option<Group>) {
    group == None || (group.value.operations.Some? && NullNameFirst(group.value.operations.value))
  }

  /** The group at place i is the first at fault, and by a null. */
  ghost predicate NullGroupAt(groups: seq<Option<Group>>, i: nat) {
    i < |groups| && NullFault(groups[i]) && GoodGroups(groups[..i])
  }

  ghost predicate NullGroupFirst(groups: seq<Option<Group>>) { exists i: nat :: NullGroupAt(groups, i) }

  lemma NullNameSnoc(names: seq<Option<string>>)
    requires names != []
    ensures var n := |names| - 1;
      NullNameFirst(names) <==> NullNameFirst(names[..n]) || (GoodNames(names[..n]) && names[n] == None)
  {
    var n := |names| - 1;
    forall j: nat | j < n ensures NullNameAt(names[..n], j) <==> NullNameAt(names, j) {
      assert names[..n][..j] == names[..j];
    }
    assert NullNameAt(names, n) <==> GoodNames(names[..n]) && names[n] == None;
  }

  lemma {:induction false} CollectOpsNull(names: seq<Option<string>>)
    ensures CollectOps(names) == NullPointer <==> NullNameFirst(names)
  {
    if names != [] {
      var n := |names| - 1;
      CollectOpsNull(names[..n]);
      CollectOpsOk(names[..n]);
      NullNameSnoc(names);
      NullNameIsBad(names[..n]);
    }
  }

  lemma NullNameIsBad(names: seq<Option<string>>)
    ensures NullNameFirst(names) ==> !GoodNames(names)
  {
    if NullNameFirst(names) {
      var j: nat :| NullNameAt(names, j);
      assert !GoodName(names[j]);
    }
  }

  lemma GrantOfNull(group: Option<Group>)
    ensures GrantOf(group) == NullPointer <==> NullFault(group)
  {
    if group.Some? {
      CollectOpsNull(if group.value.operations.Some? then group.value.operations.value else []);
    }
  }

  lemma NullGroupSnoc(groups: seq<Option<Group>>)
    requires groups != []
    ensures var n := |groups| - 1;
      NullGroupFirst(groups) <==> NullGroupFirst(groups[..n]) || (GoodGroups(groups[..n]) && NullFault(groups[n]))
  {
    var n := |groups| - 1;
    forall i: nat | i < n ensures NullGroupAt(groups[..n], i) <==> NullGroupAt(groups, i) {
      assert groups[..n][..i] == groups[..i];
    }
    assert NullGroupAt(groups, n) <==> GoodGroups(groups[..n]) && NullFault(groups[n]);
  }

  lemma {:induction false} CollectGrantsNull(groups: seq<Option<Group>>)
    ensures CollectGrants(groups) == NullPointer <==> NullGroupFirst(groups)
  {
    if groups != [] {
      var n := |groups| - 1;
      CollectGrantsNull(groups[..n]);
      CollectGrantsOk(groups[..n]);
      GrantOfNull(groups[n]);
      NullGroupSnoc(groups);
      NullGroupIsBad(groups[..n]);
    }
  }

  lemma NullGroupIsBad(groups: seq<Option<Group>>)
    ensures NullGroupFirst(groups) ==> !GoodGroups(groups)
  {
    if NullGroupFirst(groups) {
      var i: nat :| NullGroupAt(groups, i);
      GrantOfNull(groups[i]);
      GrantOfOk(groups[i]);
    }
  }

  /** A rejected claim throws for a null where its first fault is a null, and otherwise for the fault. */
  lemma FirstFaultDecides(c: GrantsClaim)
    ensures var groups := if c.groups.Some? then c.groups.value else [];
      && (AuthorizationOf(c) == NullPointer <==> NullGroupFirst(groups))
      && (AuthorizationOf(c) == IllegalArgument <==> !GoodClaim(c) && !NullGroupFirst(groups))
  {
    CollectGrantsNull(if c.groups.Some? then c.groups.value else []);
    RejectsExactlyBadClaims(c);
  }

  // ---- What an accepted claim means ----

  /** Keep the first occurrence of each element. */
  function FirstOccurrences<T(==)>(s: seq<T>): seq<T> {
    if s == [] then [] else Add(FirstOccurrences(s[..|s| - 1]), s[|s| - 1])
  }

  function NormalGroup(group: Option<Group>): Option<Group> {
    if group.Some? && group.value.operations.Some?
    then Some(group.value.(operations := Some(FirstOccurrences(group.value.operations.value))))
    else group
  }

  function NormalGroups(groups: seq<Option<Group>>): (r: seq<Option<Group>>)
    ensures |r| == |groups|
  {
    seq(|groups|, i requires 0 <= i < |groups| => NormalGroup(groups[i]))
  }

  function NormalClaim(c: GrantsClaim): GrantsClaim {
    c.(groups := Some(NormalGroups(if c.groups.Some? then c.groups.value else [])))
  }

  ghost predicate GroupAllows(group: Option<Group>, keyGroup: string, name: string) {
    && group.Some? && group.value.keyGroup == Some(keyGroup)
    && group.value.operations.Some? && Some(name) in group.value.operations.value
  }

  ghost predicate Allows(c: GrantsClaim, keyGroup: string, name: string) {
    c.groups.Some? && exists i :: 0 <= i < |c.groups.value| && GroupAllows(c.groups.value[i], keyGroup, name)
  }

  lemma {:induction false} FirstOccurrencesMembers<T>(s: seq<T>, x: T)
    ensures x in FirstOccurrences(s) <==> x in s
  {
    if s != [] {
      var n := |s| - 1;
      FirstOccurrencesMembers(s[..n], x);
      assert s == s[..n] + [s[n]];
    }
  }

  lemma {:induction false} FirstOccurrencesDistinct<T>(s: seq<T>)
    ensures Distinct(FirstOccurrences(s))
  {
    if s != [] {
      FirstOccurrencesDistinct(s[..|s| - 1]);
    }
  }

  lemma {:induction false} FirstOccurrencesIdentity<T>(s: seq<T>)
    requires Distinct(s)
    ensures FirstOccurrences(s) == s
  {
    if s != [] {
      var n := |s| - 1;
      FirstOccurrencesIdentity(s[..n]);
      assert s == s[..n] + [s[n]];
    }
  }

  lemma {:induction false} CollectOpsNames(names: seq<Option<string>>)
    requires CollectOps(names).Ok?
    ensures NamesOf(CollectOps(names).value) == FirstOccurrences(names)
  {
    if names != [] {
      var n := |names| - 1;
      CollectOpsNames(names[..n]);
      var ops, op := CollectOps(names[..n]).value, ValueOf(names[n].value).value;
      NameInverse(op, names[n].value);
      assert op in ops <==> names[n] in NamesOf(ops) by {
        if names[n] in NamesOf(ops) {
          var i :| 0 <= i < |ops| && NamesOf(ops)[i] == names[n];
          NameInverse(ops[i], "");
        }
        if op in ops {
          var i :| 0 <= i < |ops| && ops[i] == op;
          assert NamesOf(ops)[i] == names[n];
        }
      }
      assert op !in ops ==> NamesOf(ops + [op]) == NamesOf(ops) + [names[n]];
    }
  }

  lemma {:induction false} CollectGrantsGroups(groups: seq<Option<Group>>)
    requires CollectGrants(groups).Ok?
    ensures GroupsOf(CollectGrants(groups).value) == NormalGroups(groups)
  {
    if groups != [] {
      var n := |groups| - 1;
      CollectGrantsGroups(groups[..n]);
      CollectedGroup(groups[n]);
      GroupsSnoc(CollectGrants(groups).value);
      NormalSnoc(groups);
    }
  }

  lemma CollectedGroup(group: Option<Group>)
    requires GrantOf(group).Ok?
    ensures GroupOf(GrantOf(group).value) == NormalGroup(group)
  {
    GrantOfOk(group);
    CollectOpsNames(group.value.operations.value);
  }

  lemma NormalSnoc(groups: seq<Option<Group>>)
    requires groups != []
    ensures var n := |groups| - 1; NormalGroups(groups) == NormalGroups(groups[..n]) + [NormalGroup(groups[n])]
  {
  }

  /** Reading an accepted claim and writing it again drops repeated operations and nothing else. */
  lemma RewritingNormalizes(c: GrantsClaim)
    requires AuthorizationOf(c).Ok?
    ensures ClaimOf(AuthorizationOf(c).value) == NormalClaim(c)
  {
    CollectGrantsGroups(if c.groups.Some? then c.groups.value else []);
  }

  /** Normalization is idempotent and grants the same pairs. */
  lemma NormalClaimMeansTheSame(c: GrantsClaim, keyGroup: string, name: string)
    ensures NormalClaim(NormalClaim(c)) == NormalClaim(c)
    ensures Allows(NormalClaim(c), keyGroup, name) <==> Allows(c, keyGroup, name)
  {
    var groups := if c.groups.Some? then c.groups.value else [];
    var normal := NormalGroups(groups);
    forall i | 0 <= i < |groups|
      ensures NormalGroup(normal[i]) == normal[i]
      ensures GroupAllows(normal[i], keyGroup, name) <==> GroupAllows(groups[i], keyGroup, name)
    {
      NormalGroupMeansTheSame(groups[i], keyGroup, name);
    }
    assert NormalGroups(normal) == normal;
    if Allows(c, keyGroup, name) {
      var i :| 0 <= i < |groups| && GroupAllows(groups[i], keyGroup, name);
      assert GroupAllows(normal[i], keyGroup, name);
    }
  }

  lemma NormalGroupMeansTheSame(group: Option<Group>, keyGroup: string, name: string)
    ensures NormalGroup(NormalGroup(group)) == NormalGroup(group)
    ensures GroupAllows(NormalGroup(group), keyGroup, name) <==> GroupAllows(group, keyGroup, name)
  {
    if group.Some? && group.value.operations.Some? {
      var names := group.value.operations.value;
      FirstOccurrencesMembers(names, Some(name));
      FirstOccurrencesDistinct(names);
      FirstOccurrencesIdentity(FirstOccurrences(names));
    }
  }

  // ---- The scope string of the token response ----

  /** The `group:OPERATION` words of one wire group, in wire order. */
  function GroupWords(group: Option<Group>): seq<string> {
    if group.Some? && group.value.keyGroup.Some? && group.value.operations.Some? then
      var ops := group.value.operations.value;
      seq(|ops|, i requires 0 <= i < |ops| =>
        group.value.keyGroup.value + ":" + if ops[i].Some? then ops[i].value else "")
    else []
  }

  function GroupsWords(groups: seq<Option<Group>>): seq<string> {
    if groups == [] then []
    else GroupsWords(groups[..|groups| - 1]) + GroupWords(groups[|groups| - 1])
  }

  /** The scope words of a wire claim: the control flag, then every allowed pair in wire order. */
  function ScopeWords(c: GrantsClaim): seq<string> {
    (if c.control then ["control"] else []) + (if c.groups.Some? then GroupsWords(c.groups.value) else [])
  }

  function ScopeText(c: GrantsClaim): string { Join(ScopeWords(c), " ") }

  function PairWord(keyGroup: string, op: KeyOperation): string { keyGroup + ":" + Name(op) }

  /** The words listed before the group at place i, and those of its first j operations. */
  function Listed(start: seq<string>, grants: seq<Grant>, i: nat, j: nat): seq<string>
    requires if i < |grants| then j <= |grants[i].operations| else i == |grants| && j == 0
  {
    start + GroupsWords(GroupsOf(grants[..i])) + if i < |grants| then GroupWords(GroupOf(grants[i]))[..j] else []
  }

  /** The scope lists the pairs of the `grants` claim, in the claim's order. */
  method ScopeOf(authorization: Authorization) returns (scope: string)
    ensures scope == ScopeText(ClaimOf(authorization))
    ensures exists words :: scope == Join(words, " ") && Lists(words, authorization)
  {
    ScopeLists(authorization);
    var grants := authorization.grants;
    var start: seq<string> := if authorization.controlPlane then ["control"] else [];
    var words := start;
    ListedStart(start, grants);
    for i := 0 to |grants|
      invariant words == Listed(start, grants, i, 0)
    {
      for j := 0 to |grants[i].operations|
        invariant words == Listed(start, grants, i, j)
      {
        words := words + [PairWord(grants[i].keyGroup, grants[i].operations[j])];
        ListedPair(start, grants, i, j);
      }
      ListedGroup(start, grants, i);
    }
    ListedAll(authorization);
    scope := Join(words, " ");
  }

  /** The word of a scope that tells of one granted operation. */
  ghost predicate TellsOf(word: string, keyGroup: string, op: KeyOperation) {
    exists name :: Spelled(op, name) && word == keyGroup + ":" + name
  }

  /** These words tell of the grants in order, and of each grant's operations in order. */
  ghost predicate ListsGrants(words: seq<string>, grants: seq<Grant>)
    decreases |grants|
  {
    if grants == [] then words == []
    else
      var last := grants[|grants| - 1];
      var n := |words| - |last.operations|;
      && 0 <= n && ListsGrants(words[..n], grants[..|grants| - 1])
      && forall j :: 0 <= j < |last.operations| ==> TellsOf(words[n + j], last.keyGroup, last.operations[j])
  }

  ghost predicate Lists(words: seq<string>, a: Authorization) {
    if a.controlPlane then words != [] && words[0] == "control" && ListsGrants(words[1..], a.grants)
    else ListsGrants(words, a.grants)
  }

  lemma {:induction false} GroupsWordsList(grants: seq<Grant>)
    ensures ListsGrants(GroupsWords(GroupsOf(grants)), grants)
  {
    if grants != [] {
      var n := |grants| - 1;
      var before, words := GroupsWords(GroupsOf(grants[..n])), GroupWords(GroupOf(grants[n]));
      GroupsWordsList(grants[..n]);
      GroupsSnoc(grants);
      GroupsWordsSnoc(GroupsOf(grants[..n]), GroupOf(grants[n]));
      GroupWordsTell(grants[n]);
      ListsSnoc(before, words, grants);
    }
  }

  lemma ListsSnoc(before: seq<string>, words: seq<string>, grants: seq<Grant>)
    requires grants != [] && ListsGrants(before, grants[..|grants| - 1])
    requires var last := grants[|grants| - 1];
      && |words| == |last.operations|
      && forall j :: 0 <= j < |words| ==> TellsOf(words[j], last.keyGroup, last.operations[j])
    ensures ListsGrants(before + words, grants)
  {
    assert (before + words)[..|before|] == before;
    assert forall j :: 0 <= j < |words| ==> (before + words)[|before| + j] == words[j];
  }

  lemma GroupWordsTell(g: Grant)
    ensures var words := GroupWords(GroupOf(g));
      |words| == |g.operations| && forall j :: 0 <= j < |words| ==> TellsOf(words[j], g.keyGroup, g.operations[j])
  {
    forall j | 0 <= j < |g.operations| ensures TellsOf(GroupWords(GroupOf(g))[j], g.keyGroup, g.operations[j]) {
      NameIsSpelled(g.operations[j]);
    }
  }

  lemma ScopeLists(a: Authorization)
    ensures Lists(ScopeWords(ClaimOf(a)), a)
  {
    GroupsWordsList(a.grants);
    ControlFirst(a.controlPlane, GroupsWords(GroupsOf(a.grants)));
  }

  lemma ControlFirst(control: bool, words: seq<string>)
    ensures var all := (if control then ["control"] else []) + words;
      if control then all != [] && all[0] == "control" && all[1..] == words else all == words
  {
  }

  lemma ListedStart(start: seq<string>, grants: seq<Grant>)
    ensures Listed(start, grants, 0, 0) == start
  {
  }

  lemma ListedAll(a: Authorization)
    ensures Listed(if a.controlPlane then ["control"] else [], a.grants, |a.grants|, 0) == ScopeWords(ClaimOf(a))
  {
    assert a.grants[..|a.grants|] == a.grants;
  }

  lemma ListedPair(start: seq<string>, grants: seq<Grant>, i: nat, j: nat)
    requires i < |grants| && j < |grants[i].operations|
    ensures Listed(start, grants, i, j + 1)
         == Listed(start, grants, i, j) + [PairWord(grants[i].keyGroup, grants[i].operations[j])]
  {
    var words := GroupWords(GroupOf(grants[i]));
    assert words[..j + 1] == words[..j] + [PairWord(grants[i].keyGroup, grants[i].operations[j])];
  }

  lemma ListedGroup(start: seq<string>, grants: seq<Grant>, i: nat)
    requires i < |grants|
    ensures Listed(start, grants, i + 1, 0) == Listed(start, grants, i, |grants[i].operations|)
  {
    assert grants[..i + 1][..i] == grants[..i];
    GroupsSnoc(grants[..i + 1]);
    GroupsWordsSnoc(GroupsOf(grants[..i]), GroupOf(grants[i]));
  }

  lemma GroupsWordsSnoc(groups: seq<Option<Group>>, group: Option<Group>)
    ensures GroupsWords(groups + [group]) == GroupsWords(groups) + GroupWords(group)
  {
    assert (groups + [group])[..|groups|] == groups;
  }
}
