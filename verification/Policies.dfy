/** Policy versions, their registry, and the authorization of one record. */
module Policies {
  import opened Wrappers
  import opened Json

  datatype PolicyRule = PolicyRule(role: string, allowedDecisions: set<string>, allowedSources: set<string>) {
    predicate Allows(decision: string, source: string) {
      decision in allowedDecisions && (allowedSources == {} || source in allowedSources)
    }
  }

  datatype PolicyVersion = PolicyVersion(policyId: string, version: string, rules: seq<PolicyRule>)

  datatype PolicyError = MissingPolicyId | MissingDecision | MissingSource | UnknownPolicy | UnknownRole | NotAllowed

  type Policies = map<string, PolicyVersion>

  function FirstRule(rules: seq<PolicyRule>, role: string): Option<PolicyRule> {
    if rules == [] then None
    else if rules[0].role == role then Some(rules[0])
    else FirstRule(rules[1..], role)
  }

  /** rule_for_role: the first rule of the role, in list order. */
  method RuleForRole(policy: PolicyVersion, role: string) returns (rule: Option<PolicyRule>)
    ensures rule == FirstRule(policy.rules, role)
    ensures rule.None? ==> forall r :: r in policy.rules ==> r.role != role
    ensures rule.Some? ==>
              exists i :: 0 <= i < |policy.rules| && policy.rules[i] == rule.value && FirstFor(policy.rules, i, role)
  {
    var rules := policy.rules;
    var i := 0;
    while i < |rules|
      invariant 0 <= i <= |rules|
      invariant FirstRule(rules[i..], role) == FirstRule(rules, role)
      invariant forall j :: 0 <= j < i ==> rules[j].role != role
    {
      assert rules[i..][1..] == rules[i + 1..];
      if rules[i].role == role {
        assert FirstFor(rules, i, role);
        return Some(rules[i]);
      }
      i := i + 1;
    }
    return None;
  }

  predicate NonEmptyText(v: Json) {
    v.Str? && v.s != ""
  }

  /** authorize_record; None is authorization. */
  function Authorize(record: Fields, role: string, policies: Policies): Option<PolicyError> {
    var policyId, decision, source := Get(record, "policy_id"), Get(record, "decision"), Get(record, "source");
    if !NonEmptyText(policyId) then Some(MissingPolicyId)
    else if !NonEmptyText(decision) then Some(MissingDecision)
    else if !NonEmptyText(source) then Some(MissingSource)
    else if policyId.s !in policies then Some(UnknownPolicy)
    else
      match FirstRule(policies[policyId.s].rules, role)
      case None => Some(UnknownRole)
      case Some(rule) => if rule.Allows(decision.s, source.s) then None else Some(NotAllowed)
  }

  /** The record's own policy has, as its first rule for the role, one that allows it. */
  ghost predicate Permits(record: Fields, role: string, policies: Policies) {
    var policyId, decision, source := Get(record, "policy_id"), Get(record, "decision"), Get(record, "source");
    && policyId.Str? && policyId.s != "" && decision.Str? && decision.s != "" && source.Str? && source.s != ""
    && policyId.s in policies
    && RuleAllows(policies[policyId.s].rules, role, decision.s, source.s)
  }

  ghost predicate RuleAllows(rules: seq<PolicyRule>, role: string, decision: string, source: string) {
    exists i :: 0 <= i < |rules| && FirstFor(rules, i, role) && Covers(rules[i], decision, source)
  }

  /** The rule lists the decision, and the source unless it lists none. */
  ghost predicate Covers(rule: PolicyRule, decision: string, source: string) {
    decision in rule.allowedDecisions && (rule.allowedSources != {} ==> source in rule.allowedSources)
  }

  ghost predicate FirstFor(rules: seq<PolicyRule>, i: int, role: string)
    requires 0 <= i < |rules|
  {
    rules[i].role == role && forall j :: 0 <= j < i ==> rules[j].role != role
  }

  lemma {:induction false} FirstRuleIs(rules: seq<PolicyRule>, role: string, i: nat)
    requires i < |rules| && FirstFor(rules, i, role)
    ensures FirstRule(rules, role) == Some(rules[i])
  {
    if i > 0 {
      assert rules[0].role != role;
      assert forall j :: 0 <= j < |rules| - 1 ==> rules[1..][j] == rules[j + 1];
      FirstRuleIs(rules[1..], role, i - 1);
    }
  }

  lemma {:induction false} FirstRuleAt(rules: seq<PolicyRule>, role: string) returns (i: nat)
    requires FirstRule(rules, role).Some?
    ensures i < |rules| && FirstFor(rules, i, role) && rules[i] == FirstRule(rules, role).value
  {
    if rules[0].role == role {
      i := 0;
    } else {
      i := FirstRuleAt(rules[1..], role);
      assert forall j :: 0 < j < |rules| ==> rules[j] == rules[1..][j - 1];
      i := i + 1;
    }
  }

  lemma {:induction false} FirstRuleAllows(rules: seq<PolicyRule>, role: string, decision: string, source: string)
    ensures FirstRule(rules, role).Some? && FirstRule(rules, role).value.Allows(decision, source) <==>
            RuleAllows(rules, role, decision, source)
  {
    if FirstRule(rules, role).Some? {
      var i := FirstRuleAt(rules, role);
    }
    if i :| 0 <= i < |rules| && FirstFor(rules, i, role) && Covers(rules[i], decision, source) {
      FirstRuleIs(rules, role, i);
    }
  }

  lemma {:induction false} AuthorizeExactly(record: Fields, role: string, policies: Policies)
    ensures Authorize(record, role, policies).None? <==> Permits(record, role, policies)
  {
    var policyId, decision, source := Get(record, "policy_id"), Get(record, "decision"), Get(record, "source");
    if policyId.Str? && decision.Str? && source.Str? && policyId.s in policies {
      FirstRuleAllows(policies[policyId.s].rules, role, decision.s, source.s);
    }
  }

  /** The error given is the first of the faults, in the order of the checks. */
  lemma {:induction false} RefusalHolds(record: Fields, role: string, policies: Policies)
    requires Authorize(record, role, policies).Some?
    ensures var policyId, decision, source := Get(record, "policy_id"), Get(record, "decision"), Get(record, "source");
            match Authorize(record, role, policies).value
            case MissingPolicyId => !policyId.Str? || policyId.s == ""
            case MissingDecision => NonEmptyText(policyId) && (!decision.Str? || decision.s == "")
            case MissingSource => NonEmptyText(policyId) && NonEmptyText(decision) && (!source.Str? || source.s == "")
            case UnknownPolicy => policyId.Str? && policyId.s !in policies
            case UnknownRole => policyId.Str? && policyId.s in policies
                                && forall r :: r in policies[policyId.s].rules ==> r.role != role
            case NotAllowed => policyId.Str? && policyId.s in policies
                               && RoleRefused(policies[policyId.s].rules, role, decision, source)
  {
    var policyId := Get(record, "policy_id");
    if policyId.Str? && policyId.s in policies {
      NoRule(policies[policyId.s].rules, role);
      if FirstRule(policies[policyId.s].rules, role).Some? {
        var i := FirstRuleAt(policies[policyId.s].rules, role);
      }
    }
  }

  /** The first rule of the role does not cover the record. */
  ghost predicate RoleRefused(rules: seq<PolicyRule>, role: string, decision: Json, source: Json) {
    exists i :: 0 <= i < |rules| && FirstFor(rules, i, role)
      && decision.Str? && source.Str? && !Covers(rules[i], decision.s, source.s)
  }

  lemma {:induction false} NoRule(rules: seq<PolicyRule>, role: string)
    ensures FirstRule(rules, role).None? <==> forall r :: r in rules ==> r.role != role
  {
    if rules != [] {
      NoRule(rules[1..], role);
      assert rules == [rules[0]] + rules[1..];
    }
  }

  /** {policy.policy_id: policy for policy in policies}: the last version of an identifier wins. */
  function PoliciesOf(list: seq<PolicyVersion>): Policies {
    if list == [] then map[]
    else PoliciesOf(list[..|list| - 1])[list[|list| - 1].policyId := list[|list| - 1]]
  }

  class PolicyRegistry {
    var policies: Policies

    constructor (list: seq<PolicyVersion>)
      ensures policies == PoliciesOf(list)
    {
      policies := map[];
      new;
      var i := 0;
      while i < |list|
        invariant 0 <= i <= |list| && policies == PoliciesOf(list[..i])
      {
        assert list[..i + 1][..i] == list[..i];
        policies := policies[list[i].policyId := list[i]];
        i := i + 1;
      }
      assert list[..i] == list;
    }

    /** Adds or replaces one policy; records of every other policy are judged as before. */
    method Add(policy: PolicyVersion)
      modifies this
      ensures policies == old(policies)[policy.policyId := policy]
      ensures forall record, role :: Get(record, "policy_id") != Str(policy.policyId) ==>
                Authorize(record, role, policies) == Authorize(record, role, old(policies))
    {
      policies := policies[policy.policyId := policy];
    }
  }
}
