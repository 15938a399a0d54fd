/** Rule-based access control: an ordered list of stored rules, each a
    JSON condition and an ALLOW/DENY effect; the first active rule whose
    condition holds decides, and no match allows. */
module Rubac {
  import opened Types
  import Text

  /** A value read from the evaluation context: JavaScript `undefined`,
      `null` or a string. */
  datatype CtxValue = Undefined | Null | Str(s: string)

  /** A value stored in a rule's JSON condition. Numbers, booleans, arrays
      and objects are `JOther`; only their truthiness matters, because under
      `!==`/`===` none of them equals a context value. */
  datatype JsonValue = JNull | JString(s: string) | JOther(truthy: bool)

  /** A JSON object has each key once. */
  predicate DistinctKeys(entries: seq<(string, JsonValue)>)
  {
    forall i, j :: 0 <= i < j < |entries| ==> entries[i].0 != entries[j].0
  }

  /** A rule condition: the entries of a JSON object, in key order. */
  type Condition = entries: seq<(string, JsonValue)> | DistinctKeys(entries) witness []

  /** The evaluation context: property name to value; a missing property
      reads as `undefined`. */
  type Context = map<string, CtxValue>

  datatype Rule = Rule(
    id: string,
    ruleName: string,
    condition: Condition,
    action: RuleAction,
    isActive: bool,
    description: Option<string>)

  /** `context[key]`. */
  function Lookup(ctx: Context, key: string): CtxValue
  {
    if key in ctx then ctx[key] else Undefined
  }

  /** `condition[key]`: the value of the entry with that key, if any. */
  function Prop(entries: seq<(string, JsonValue)>, key: string): (r: Option<JsonValue>)
    ensures r.None? <==> forall i :: 0 <= i < |entries| ==> entries[i].0 != key
    ensures r.Some? ==> exists i :: 0 <= i < |entries| && entries[i] == (key, r.value)
    decreases |entries|
  {
    if |entries| == 0 then None
    else if entries[0].0 == key then Some(entries[0].1)
    else Prop(entries[1..], key)
  }

  /** JavaScript truthiness of a condition property. */
  predicate Truthy(v: Option<JsonValue>)
  {
    match v
    case None => false
    case Some(JNull) => false
    case Some(JString(s)) => s != ""
    case Some(JOther(t)) => t
  }

  /** `contextValue === conditionValue`. */
  predicate StrictEquals(c: CtxValue, v: JsonValue)
  {
    match (c, v)
    case (Null, JNull) => true
    case (Str(a), JString(b)) => a == b
    case _ => false
  }

  /** The keys the tagged branches own; the custom-equality branch skips them. */
  predicate Reserved(key: string)
  {
    key == "time" || key == "department" || key == "ipAddress"
  }

  /** The 'companyNetwork' address test: a private 192.168/16 or 10/8 prefix,
      or loopback. A missing address never matches. */
  predicate CompanyNetwork(ip: CtxValue)
  {
    ip.Str? && (Text.StartsWith(ip.s, "192.168.") || Text.StartsWith(ip.s, "10.") || ip.s == "127.0.0.1")
  }

  /** The custom-condition loop: every non-reserved key must equal the
      context's value for it; the loop stops at the first mismatch. */
  function CustomMatch(entries: seq<(string, JsonValue)>, ctx: Context): (r: bool)
    ensures r <==> forall i :: 0 <= i < |entries| && !Reserved(entries[i].0) ==>
                      StrictEquals(Lookup(ctx, entries[i].0), entries[i].1)
    decreases |entries|
  {
    if |entries| == 0 then true
    else if !Reserved(entries[0].0) && !StrictEquals(Lookup(ctx, entries[0].0), entries[0].1) then false
    else CustomMatch(entries[1..], ctx)
  }

  /** evaluateCondition, with the clock reading `workingHours` as input. A
      recognised time tag decides by the clock alone; a condition with no
      time tag and no truthy department or address holds exactly when each
      of its other entries strictly equals the context's value. */
  function EvaluateCondition(condition: Condition, ctx: Context, workingHours: bool): (r: bool)
    ensures Prop(condition, "time") == Some(JString("workHours")) ==> (r <==> workingHours)
    ensures Prop(condition, "time") == Some(JString("afterHours")) ==> (r <==> !workingHours)
    ensures Prop(condition, "time") != Some(JString("workHours")) && Prop(condition, "time") != Some(JString("afterHours"))
            && !Truthy(Prop(condition, "department")) && !Truthy(Prop(condition, "ipAddress")) ==>
              (r <==> forall i :: 0 <= i < |condition| && !Reserved(condition[i].0) ==>
                        StrictEquals(Lookup(ctx, condition[i].0), condition[i].1))
  {
    var time := Prop(condition, "time");
    var department := Prop(condition, "department");
    var ip := Prop(condition, "ipAddress");
    if time == Some(JString("workHours")) then workingHours
    else if time == Some(JString("afterHours")) then !workingHours
    else if Truthy(department) then
      if department == Some(JString("match")) then
        Lookup(ctx, "userDepartment") == Lookup(ctx, "resourceDepartment")
      else
        StrictEquals(Lookup(ctx, "userDepartment"), department.value)
    else if Truthy(ip) then
      if ip == Some(JString("companyNetwork")) then CompanyNetwork(Lookup(ctx, "ipAddress"))
      else StrictEquals(Lookup(ctx, "ipAddress"), ip.value)
    else CustomMatch(condition, ctx)
  }

  /** A time tag decides alone: the context is not read, and 'workHours'
      and 'afterHours' are complementary for the same clock. */
  lemma TimeTagDecides(c: Condition, c': Condition, ctx: Context, ctx': Context, workingHours: bool)
    requires Prop(c, "time") == Some(JString("workHours"))
    requires Prop(c', "time") == Some(JString("afterHours"))
    ensures EvaluateCondition(c, ctx, workingHours) == workingHours
    ensures EvaluateCondition(c, ctx, workingHours) == EvaluateCondition(c, ctx', workingHours)
    ensures EvaluateCondition(c', ctx, workingHours) != EvaluateCondition(c, ctx, workingHours)
  {
  }

  /** Without a time tag, a truthy department decides alone: 'match'
      compares the two departments, any other value must equal the user's. */
  lemma DepartmentTagDecides(c: Condition, ctx: Context, workingHours: bool)
    requires Prop(c, "time") != Some(JString("workHours"))
    requires Prop(c, "time") != Some(JString("afterHours"))
    requires Truthy(Prop(c, "department"))
    ensures Prop(c, "department") == Some(JString("match")) ==>
              (EvaluateCondition(c, ctx, workingHours) <==>
                 Lookup(ctx, "userDepartment") == Lookup(ctx, "resourceDepartment"))
    ensures Prop(c, "department") != Some(JString("match")) ==>
              (EvaluateCondition(c, ctx, workingHours) <==>
                 exists d :: Prop(c, "department") == Some(JString(d)) && Lookup(ctx, "userDepartment") == Str(d))
  {
    var dep := Prop(c, "department").value;
    if dep.JString? {
      assert StrictEquals(Lookup(ctx, "userDepartment"), dep) <==> Lookup(ctx, "userDepartment") == Str(dep.s);
    }
  }

  /** Without a time tag or truthy department, a truthy ipAddress decides
      alone: 'companyNetwork' is the private-range test, any other value
      must equal the address exactly. */
  lemma IpTagDecides(c: Condition, ctx: Context, workingHours: bool)
    requires Prop(c, "time") != Some(JString("workHours"))
    requires Prop(c, "time") != Some(JString("afterHours"))
    requires !Truthy(Prop(c, "department"))
    requires Truthy(Prop(c, "ipAddress"))
    ensures Prop(c, "ipAddress") == Some(JString("companyNetwork")) ==>
              (EvaluateCondition(c, ctx, workingHours) <==> CompanyNetwork(Lookup(ctx, "ipAddress")))
    ensures Prop(c, "ipAddress") != Some(JString("companyNetwork")) ==>
              (EvaluateCondition(c, ctx, workingHours) <==>
                 exists a :: Prop(c, "ipAddress") == Some(JString(a)) && Lookup(ctx, "ipAddress") == Str(a))
  {
    var ip := Prop(c, "ipAddress").value;
    if ip.JString? {
      assert StrictEquals(Lookup(ctx, "ipAddress"), ip) <==> Lookup(ctx, "ipAddress") == Str(ip.s);
    }
  }

  /** The private-range test on concrete addresses. */
  lemma CompanyNetworkExamples()
    ensures CompanyNetwork(Str("192.168.1.20"))
    ensures CompanyNetwork(Str("10.0.0.7"))
    ensures CompanyNetwork(Str("127.0.0.1"))
    ensures !CompanyNetwork(Str("172.16.0.1"))
    ensures !CompanyNetwork(Str("unknown"))
    ensures !CompanyNetwork(Undefined) && !CompanyNetwork(Null)
  {
    assert "172.16.0.1"[1] != "10."[1];
    assert "172.16.0.1"[1] != "192.168."[1];
  }

  /** In the fallback case every non-reserved key is an equality test, so a
      condition with no such keys matches every context. */
  lemma FallbackIsConjunction(c: Condition, ctx: Context, workingHours: bool)
    requires Prop(c, "time") != Some(JString("workHours"))
    requires Prop(c, "time") != Some(JString("afterHours"))
    requires !Truthy(Prop(c, "department"))
    requires !Truthy(Prop(c, "ipAddress"))
    ensures EvaluateCondition(c, ctx, workingHours) <==>
              forall i :: 0 <= i < |c| && !Reserved(c[i].0) ==> StrictEquals(Lookup(ctx, c[i].0), c[i].1)
    ensures (forall i :: 0 <= i < |c| ==> Reserved(c[i].0)) ==> EvaluateCondition(c, ctx, workingHours)
  {
  }

  /** A rule is consulted only when active, and fires when its condition holds. */
  predicate Fires(rule: Rule, ctx: Context, workingHours: bool)
  {
    rule.isActive && EvaluateCondition(rule.condition, ctx, workingHours)
  }

  /** The decision of a rule that fires. */
  function Verdict(rule: Rule): (d: Decision)
    ensures d.model == Some(RuBAC) && d.reason.Some? && d.reason.value != ""
    ensures d.allowed <==> rule.action == ALLOW
  {
    match rule.action
    case DENY => Decision(false, Some("Access denied by rule: " + rule.ruleName), Some(RuBAC))
    case ALLOW => Decision(true, Some("Access allowed by rule: " + rule.ruleName), Some(RuBAC))
  }

  /** The fail-open default when no rule fires. */
  const NoMatch: Decision := Decision(true, Some("No matching rules"), Some(RuBAC))

  /** checkRuBAC over the stored rule sequence: the first rule that fires
      decides; when none fires the result is the allowing default. */
  function CheckRubac(rules: seq<Rule>, ctx: Context, workingHours: bool): (d: Decision)
    ensures d.model == Some(RuBAC) && d.reason.Some? && d.reason.value != ""
    ensures (forall i :: 0 <= i < |rules| ==> !Fires(rules[i], ctx, workingHours)) ==> d == NoMatch
    ensures (exists i :: 0 <= i < |rules| && Fires(rules[i], ctx, workingHours)) ==>
              exists i :: 0 <= i < |rules| && Fires(rules[i], ctx, workingHours)
                && (forall j :: 0 <= j < i ==> !Fires(rules[j], ctx, workingHours))
                && d == Verdict(rules[i])
    decreases |rules|
  {
    if |rules| == 0 then NoMatch
    else if Fires(rules[0], ctx, workingHours) then Verdict(rules[0])
    else
      var d := CheckRubac(rules[1..], ctx, workingHours);
      assert forall i :: 1 <= i < |rules| ==> rules[i] == rules[1..][i - 1];
      d
  }

  /** A deny from the rule layer always names the rule that fired. */
  lemma RubacDenyNamesRule(rules: seq<Rule>, ctx: Context, workingHours: bool)
    requires !CheckRubac(rules, ctx, workingHours).allowed
    ensures exists i :: 0 <= i < |rules| && rules[i].isActive && rules[i].action == DENY
              && CheckRubac(rules, ctx, workingHours).reason == Some("Access denied by rule: " + rules[i].ruleName)
  {
    var i :| 0 <= i < |rules| && Fires(rules[i], ctx, workingHours)
             && (forall j :: 0 <= j < i ==> !Fires(rules[j], ctx, workingHours))
             && CheckRubac(rules, ctx, workingHours) == Verdict(rules[i]);
  }

  /** A rule that does not fire is passed over. */
  lemma SkipsNonFiring(rules: seq<Rule>, ctx: Context, workingHours: bool)
    requires |rules| > 0 && !Fires(rules[0], ctx, workingHours)
    ensures CheckRubac(rules, ctx, workingHours) == CheckRubac(rules[1..], ctx, workingHours)
  {
  }

  /** Once a rule in the list has fired, rules appended after the list
      cannot change the decision. */
  lemma {:induction false} LaterRulesCannotOverride(rules: seq<Rule>, more: seq<Rule>, ctx: Context, workingHours: bool)
    requires exists i :: 0 <= i < |rules| && Fires(rules[i], ctx, workingHours)
    ensures CheckRubac(rules + more, ctx, workingHours) == CheckRubac(rules, ctx, workingHours)
    decreases |rules|
  {
    assert (rules + more)[0] == rules[0];
    if !Fires(rules[0], ctx, workingHours) {
      var i :| 0 <= i < |rules| && Fires(rules[i], ctx, workingHours);
      assert rules[1..][i - 1] == rules[i];
      assert (rules + more)[1..] == rules[1..] + more;
      LaterRulesCannotOverride(rules[1..], more, ctx, workingHours);
      SkipsNonFiring(rules + more, ctx, workingHours);
      SkipsNonFiring(rules, ctx, workingHours);
    }
  }

  /** Rule order is significant: of two rules that both fire, the first decides. */
  lemma FirstOfTwoDecides(r1: Rule, r2: Rule, rest: seq<Rule>, ctx: Context, workingHours: bool)
    requires Fires(r1, ctx, workingHours) && Fires(r2, ctx, workingHours)
    ensures CheckRubac([r1, r2] + rest, ctx, workingHours) == Verdict(r1)
    ensures CheckRubac([r2, r1] + rest, ctx, workingHours) == Verdict(r2)
  {
    assert ([r1, r2] + rest)[0] == r1;
    assert ([r2, r1] + rest)[0] == r2;
  }

  /** The active rules in stored order: what the store query returns. */
  function ActiveRules(rules: seq<Rule>): (r: seq<Rule>)
    ensures |r| <= |rules|
    ensures forall x :: x in r <==> x in rules && x.isActive
    ensures (forall i :: 0 <= i < |rules| ==> rules[i].isActive) ==> r == rules
    decreases |rules|
  {
    if |rules| == 0 then []
    else if rules[0].isActive then [rules[0]] + ActiveRules(rules[1..])
    else ActiveRules(rules[1..])
  }

  /** The query keeps stored order: filtering a concatenation filters each
      part and concatenates the results, so a rule stored before another is
      returned before it. */
  lemma {:induction false} ActiveRulesKeepsOrder(a: seq<Rule>, b: seq<Rule>)
    ensures ActiveRules(a + b) == ActiveRules(a) + ActiveRules(b)
    ensures ActiveRules([]) == []
    ensures forall x :: ActiveRules([x]) == if x.isActive then [x] else []
    decreases |a|
  {
    if |a| > 0 {
      assert (a + b)[0] == a[0];
      assert (a + b)[1..] == a[1..] + b;
      ActiveRulesKeepsOrder(a[1..], b);
    } else {
      assert a + b == b;
    }
    forall x: Rule
      ensures ActiveRules([x]) == if x.isActive then [x] else []
    {
      assert [x][1..] == [];
    }
  }

  /** Skipping inactive rules during the scan is the same as scanning only
      the active rules the store query returns. */
  lemma {:induction false} InactiveRulesAreIgnored(rules: seq<Rule>, ctx: Context, workingHours: bool)
    ensures CheckRubac(ActiveRules(rules), ctx, workingHours) == CheckRubac(rules, ctx, workingHours)
    decreases |rules|
  {
    if |rules| > 0 {
      InactiveRulesAreIgnored(rules[1..], ctx, workingHours);
      if rules[0].isActive {
        assert ([rules[0]] + ActiveRules(rules[1..]))[1..] == ActiveRules(rules[1..]);
      }
    }
  }

  /** The store's error when a write would give two rules the same name:
      `ruleName` is the rule table's unique key. */
  const NAME_TAKEN: string := "Unique constraint failed on the fields: (`ruleName`)"

  /** The rule table's key constraint: no two stored rules share a name. */
  predicate UniqueNames(rules: seq<Rule>)
  {
    forall i, j :: 0 <= i < j < |rules| ==> rules[i].ruleName != rules[j].ruleName
  }

  /** createRule: the new rule is stored active, after the existing ones;
      the store rejects a name that is already in use and stores nothing. */
  function CreateRule(rules: seq<Rule>, id: string, ruleName: string, condition: Condition,
                      action: RuleAction, description: Option<string>): (r: Result<seq<Rule>, string>)
    requires forall i :: 0 <= i < |rules| ==> rules[i].id != id
    ensures r.Failure? <==> exists i :: 0 <= i < |rules| && rules[i].ruleName == ruleName
    ensures r.Failure? ==> r.error == NAME_TAKEN
    ensures r.Success? ==> |r.value| == |rules| + 1 && r.value[..|rules|] == rules
    ensures r.Success? ==> r.value[|rules|].isActive && r.value[|rules|].id == id && r.value[|rules|].ruleName == ruleName
    ensures r.Success? ==> r.value[|rules|].condition == condition && r.value[|rules|].action == action
    ensures r.Success? ==> r.value[|rules|].description == description
  {
    if exists i :: 0 <= i < |rules| && rules[i].ruleName == ruleName then Failure(NAME_TAKEN)
    else Success(rules + [Rule(id, ruleName, condition, action, true, description)])
  }

  /** Creating a rule keeps the names unique. */
  lemma CreateKeepsNamesUnique(rules: seq<Rule>, id: string, ruleName: string, condition: Condition,
                               action: RuleAction, description: Option<string>)
    requires forall i :: 0 <= i < |rules| ==> rules[i].id != id
    requires UniqueNames(rules)
    ensures var r := CreateRule(rules, id, ruleName, condition, action, description);
            r.Success? ==> UniqueNames(r.value)
  {
    var r := CreateRule(rules, id, ruleName, condition, action, description);
    if r.Success? {
      forall i, j | 0 <= i < j < |r.value|
        ensures r.value[i].ruleName != r.value[j].ruleName
      {
        assert r.value[i] == rules[i];
        if j < |rules| {
          assert r.value[j] == rules[j];
        }
      }
    }
  }

  /** A created rule changes a decision only when no existing rule fires;
      then it decides if its condition holds. */
  lemma CreatedRuleFiresLast(rules: seq<Rule>, id: string, ruleName: string, condition: Condition,
                             action: RuleAction, description: Option<string>, ctx: Context, workingHours: bool)
    requires forall i :: 0 <= i < |rules| ==> rules[i].id != id
    ensures var r := CreateRule(rules, id, ruleName, condition, action, description);
            var d := CheckRubac(rules, ctx, workingHours);
            r.Success? ==>
              var d' := CheckRubac(r.value, ctx, workingHours);
              && ((exists i :: 0 <= i < |rules| && Fires(rules[i], ctx, workingHours)) ==> d' == d)
              && ((forall i :: 0 <= i < |rules| ==> !Fires(rules[i], ctx, workingHours)) ==>
                    d' == (if EvaluateCondition(condition, ctx, workingHours) then Verdict(r.value[|rules|]) else NoMatch))
  {
    var r := CreateRule(rules, id, ruleName, condition, action, description);
    if r.Success? {
      var rules' := r.value;
      var created := rules'[|rules|];
      assert rules' == rules + [created];
      if exists i :: 0 <= i < |rules| && Fires(rules[i], ctx, workingHours) {
        LaterRulesCannotOverride(rules, [created], ctx, workingHours);
      } else {
        SilentPrefixIsTransparent(rules, [created], ctx, workingHours);
        if !Fires(created, ctx, workingHours) {
          SkipsNonFiring([created], ctx, workingHours);
        }
      }
    }
  }

  /** Rules that do not fire can be dropped from the front of the list. */
  lemma {:induction false} SilentPrefixIsTransparent(rules: seq<Rule>, more: seq<Rule>, ctx: Context, workingHours: bool)
    requires forall i :: 0 <= i < |rules| ==> !Fires(rules[i], ctx, workingHours)
    ensures CheckRubac(rules + more, ctx, workingHours) == CheckRubac(more, ctx, workingHours)
    decreases |rules|
  {
    if |rules| > 0 {
      assert (rules + more)[0] == rules[0];
      assert (rules + more)[1..] == rules[1..] + more;
      assert forall i :: 0 <= i < |rules[1..]| ==> rules[1..][i] == rules[i + 1];
      SilentPrefixIsTransparent(rules[1..], more, ctx, workingHours);
      SkipsNonFiring(rules + more, ctx, workingHours);
    } else {
      assert rules + more == more;
    }
  }

  /** The optional fields of an updateRule call; absent fields are left as they are. */
  datatype RuleUpdate = RuleUpdate(
    ruleName: Option<string>,
    condition: Option<Condition>,
    action: Option<RuleAction>,
    description: Option<string>,
    isActive: Option<bool>)

  function ApplyUpdate(rule: Rule, u: RuleUpdate): Rule
  {
    Rule(rule.id,
         if u.ruleName.Some? then u.ruleName.value else rule.ruleName,
         if u.condition.Some? then u.condition.value else rule.condition,
         if u.action.Some? then u.action.value else rule.action,
         if u.isActive.Some? then u.isActive.value else rule.isActive,
         if u.description.Some? then u.description else rule.description)
  }

  /** The position of the rule with the given id. */
  function FindRule(rules: seq<Rule>, id: string): (k: Option<nat>)
    ensures k.None? <==> forall i :: 0 <= i < |rules| ==> rules[i].id != id
    ensures k.Some? ==> k.value < |rules| && rules[k.value].id == id
    decreases |rules|
  {
    if |rules| == 0 then None
    else if rules[0].id == id then Some(0)
    else
      match FindRule(rules[1..], id)
      case None => None
      case Some(k) => Some(k + 1)
  }

  /** updateRule: rewrite the rule with the given id in place. The store
      raises an error when no rule has that id, and, when the update
      renames the rule, when another rule already carries the new name. */
  function UpdateRule(rules: seq<Rule>, id: string, u: RuleUpdate): (r: Result<seq<Rule>, string>)
    ensures r.Failure? <==>
              (forall i :: 0 <= i < |rules| ==> rules[i].id != id)
              || (u.ruleName.Some? && exists j :: 0 <= j < |rules| && rules[j].id != id && rules[j].ruleName == u.ruleName.value)
    ensures r.Failure? ==>
              r.error == if forall i :: 0 <= i < |rules| ==> rules[i].id != id then UPDATE_NOT_FOUND else NAME_TAKEN
    ensures r.Success? ==>
              && |r.value| == |rules|
              && exists k :: 0 <= k < |rules| && rules[k].id == id
                   && r.value[k] == ApplyUpdate(rules[k], u)
                   && forall j :: 0 <= j < |rules| && j != k ==> r.value[j] == rules[j]
  {
    match FindRule(rules, id)
    case None => Failure(UPDATE_NOT_FOUND)
    case Some(k) =>
      if u.ruleName.Some? && exists j :: 0 <= j < |rules| && rules[j].id != id && rules[j].ruleName == u.ruleName.value
      then Failure(NAME_TAKEN)
      else Success(rules[k := ApplyUpdate(rules[k], u)])
  }

  /** Updating a rule keeps the names unique when ids are unique: a rename
      onto another rule's name is rejected. */
  lemma UpdateKeepsNamesUnique(rules: seq<Rule>, id: string, u: RuleUpdate)
    requires UniqueNames(rules)
    requires forall i, j :: 0 <= i < j < |rules| ==> rules[i].id != rules[j].id
    ensures var r := UpdateRule(rules, id, u);
            r.Success? ==> UniqueNames(r.value)
  {
    var r := UpdateRule(rules, id, u);
    if r.Success? {
      var k :| 0 <= k < |rules| && rules[k].id == id && r.value[k] == ApplyUpdate(rules[k], u)
               && forall j :: 0 <= j < |rules| && j != k ==> r.value[j] == rules[j];
      forall i, j | 0 <= i < j < |r.value|
        ensures r.value[i].ruleName != r.value[j].ruleName
      {
        if i == k {
          assert rules[j].id != id;
        } else if j == k {
          assert rules[i].id != id;
        }
      }
    }
  }

  /** Deactivating a rule takes it out of every later evaluation, whatever
      its condition. */
  lemma DeactivatedRuleNeverFires(rules: seq<Rule>, id: string, ctx: Context, workingHours: bool)
    ensures var r := UpdateRule(rules, id, RuleUpdate(None, None, None, None, Some(false)));
            r.Success? ==> exists k :: 0 <= k < |rules| && rules[k].id == id && !Fires(r.value[k], ctx, workingHours)
  {
  }
}
