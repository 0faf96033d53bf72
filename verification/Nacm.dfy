/**
Anonymous access: the validator of the NACM configuration against the rule evaluation of RFC 8341.
*/
module Nacm {
  import opened Common

  datatype Op = Create | Read | Update | Delete | Exec

  /** The access-operations leaf: "*" or a set of bits. Its text is "read" exactly for the bits {Read}. */
  datatype Operations = AllOperations | Bits(bits: set<Op>)

  /** The rule-type choice: nothing, or one of rpc-name, notification-name and path. */
  datatype Restriction = Unrestricted | RpcName(name: string) | NotificationName(name: string) | DataPath(path: string)

  datatype Effect = Permit | Deny

  datatype Rule = Rule(mod: string, restriction: Restriction, operations: Operations, effect: Effect)

  datatype RuleList = RuleList(groups: set<string>, rules: seq<Rule>)

  /** The rule-lists, or nothing if there is no NACM data at all. */
  type Config = Option<seq<RuleList>>

  // ----- the validator -----

  const SUBSCRIBED_NOTIFICATIONS := "ietf-subscribed-notifications"
  const ESTABLISH := "establish-subscription"

  predicate IsWhitelistedRpc(r: Rule) {
    r.mod == SUBSCRIBED_NOTIFICATIONS && r.restriction == RpcName(ESTABLISH)
  }

  predicate IsRuleForAnonymousAccess(r: Rule) {
    r.operations == Bits({Read}) || (r.operations == Bits({Exec}) && IsWhitelistedRpc(r))
  }

  predicate IsRuleWildcardDeny(r: Rule) {
    r.effect == Deny && r.mod == "*" && r.operations == AllOperations
  }

  predicate ValidFirstList(l: RuleList, anonGroup: string) {
    && anonGroup in l.groups
    && l.rules != []
    && (forall i | 0 <= i < |l.rules| - 1 :: IsRuleForAnonymousAccess(l.rules[i]))
    && IsRuleWildcardDeny(l.rules[|l.rules| - 1])
  }

  predicate ValidAnonymousRules(c: Config, anonGroup: string) {
    c.Some? && c.value != [] && ValidFirstList(c.value[0], anonGroup)
  }

  // ----- which configurations are accepted -----

  /** What the rules before the last one may be: about reading, or about executing establish-subscription. */
  ghost predicate IsReadRule(r: Rule) {
    exists mod, restriction, effect :: r == Rule(mod, restriction, Bits({Read}), effect)
  }

  ghost predicate IsEstablishRule(r: Rule) {
    exists effect :: r == Rule("ietf-subscribed-notifications", RpcName("establish-subscription"), Bits({Exec}), effect)
  }

  function DenyRule(restriction: Restriction): Rule {
    Rule("*", restriction, AllOperations, Deny)
  }

  /** The documented shape of the first rule-list: the group, rules for anonymous access, the rule that denies. */
  ghost predicate IsAnonymousList(l: RuleList, anonGroup: string, allowed: seq<Rule>, restriction: Restriction) {
    && anonGroup in l.groups
    && l.rules == allowed + [DenyRule(restriction)]
    && forall i | 0 <= i < |allowed| :: IsReadRule(allowed[i]) || IsEstablishRule(allowed[i])
  }

  lemma AnonymousRuleIff(r: Rule)
    ensures IsRuleForAnonymousAccess(r) <==> IsReadRule(r) || IsEstablishRule(r)
  {
    if r.operations == Bits({Read}) {
      assert r == Rule(r.mod, r.restriction, Bits({Read}), r.effect);
    }
    if IsRuleForAnonymousAccess(r) && r.operations == Bits({Exec}) {
      assert Exec in Bits({Exec}).bits && Exec !in Bits({Read}).bits;
      assert r == Rule("ietf-subscribed-notifications", RpcName("establish-subscription"), Bits({Exec}), r.effect);
    }
  }

  /** Accepted are exactly the configurations whose first rule-list has the documented shape. */
  lemma AcceptedIffDocumented(c: Config, anonGroup: string)
    ensures ValidAnonymousRules(c, anonGroup)
            <==> c.Some? && c.value != []
                 && exists allowed, restriction :: IsAnonymousList(c.value[0], anonGroup, allowed, restriction)
  {
    if c.Some? && c.value != [] {
      var l := c.value[0];
      forall i | 0 <= i < |l.rules|
        ensures IsRuleForAnonymousAccess(l.rules[i]) <==> IsReadRule(l.rules[i]) || IsEstablishRule(l.rules[i])
      {
        AnonymousRuleIff(l.rules[i]);
      }
      if ValidAnonymousRules(c, anonGroup) {
        SplitLast(l.rules);
        var last := l.rules[|l.rules| - 1];
        assert IsAnonymousList(l, anonGroup, l.rules[..|l.rules| - 1], last.restriction);
      }
      if exists allowed, restriction :: IsAnonymousList(l, anonGroup, allowed, restriction) {
        var allowed, restriction :| IsAnonymousList(l, anonGroup, allowed, restriction);
        assert forall i | 0 <= i < |l.rules| - 1 :: l.rules[i] == allowed[i];
      }
    }
  }

  // ----- rule evaluation, sections 3.4.4 to 3.4.6 of RFC 8341 -----

  /** An RPC, a data node (an action when the operation is Exec), or a notification. */
  datatype Request =
    | Invoke(mod: string, rpc: string)
    | Access(mod: string, path: string, op: Op)
    | Receive(mod: string, notification: string)

  function OperationOf(q: Request): Op {
    match q
    case Invoke(_, _) => Exec
    case Access(_, _, op) => op
    case Receive(_, _) => Read
  }

  /** `covers(p, q)`: the instance-identifier p covers the node at q. */
  type Coverage = (string, string) -> bool

  predicate AppliesTo(r: Restriction, q: Request, covers: Coverage) {
    match r
    case Unrestricted => true
    case RpcName(name) => q.Invoke? && (name == "*" || name == q.rpc)
    case NotificationName(name) => q.Receive? && (name == "*" || name == q.notification)
    case DataPath(path) => q.Access? && covers(path, q.path)
  }

  predicate RuleMatches(r: Rule, q: Request, covers: Coverage) {
    && (r.mod == "*" || r.mod == q.mod)
    && AppliesTo(r.restriction, q, covers)
    && (r.operations == AllOperations || OperationOf(q) in r.operations.bits)
  }

  function FirstMatch(rules: seq<Rule>, q: Request, covers: Coverage): Option<Effect> {
    if rules == [] then None
    else if RuleMatches(rules[0], q, covers) then Some(rules[0].effect)
    else FirstMatch(rules[1..], q, covers)
  }

  predicate IsForUser(l: RuleList, userGroups: set<string>) {
    "*" in l.groups || l.groups * userGroups != {}
  }

  /** The rule-lists in order; the first matching rule decides. None: the defaults decide. */
  function Scan(lists: seq<RuleList>, userGroups: set<string>, q: Request, covers: Coverage): Option<Effect> {
    if lists == [] then None
    else
      var here := if IsForUser(lists[0], userGroups) then FirstMatch(lists[0].rules, q, covers) else None;
      if here.Some? then here else Scan(lists[1..], userGroups, q, covers)
  }

  // ----- what the validator guarantees -----

  /** What an anonymous user may possibly do. */
  predicate Tolerated(q: Request) {
    OperationOf(q) == Read || q == Invoke(SUBSCRIBED_NOTIFICATIONS, ESTABLISH)
  }

  lemma AnonymousRulesOnlyMatchTolerated(r: Rule, q: Request, covers: Coverage)
    requires IsRuleForAnonymousAccess(r) && !Tolerated(q)
    ensures !RuleMatches(r, q, covers)
  {
  }

  /** All rules but the last pass over every request that is not tolerated. */
  lemma {:induction false} OnlyLastRuleCounts(rules: seq<Rule>, q: Request, covers: Coverage)
    requires rules != [] && !Tolerated(q)
    requires forall i | 0 <= i < |rules| - 1 :: IsRuleForAnonymousAccess(rules[i])
    ensures FirstMatch(rules, q, covers) ==
            var last := rules[|rules| - 1]; if RuleMatches(last, q, covers) then Some(last.effect) else None
    decreases |rules|
  {
    if |rules| == 1 {
    } else {
      AnonymousRulesOnlyMatchTolerated(rules[0], q, covers);
      OnlyLastRuleCounts(rules[1..], q, covers);
    }
  }

  /** With an unrestricted last rule, everything else is denied, whatever the other rule-lists say. */
  lemma ValidRulesDeny(c: Config, anonGroup: string, userGroups: set<string>, q: Request, covers: Coverage)
    requires ValidAnonymousRules(c, anonGroup) && anonGroup in userGroups && !Tolerated(q)
    requires var rules := c.value[0].rules; rules[|rules| - 1].restriction == Unrestricted
    ensures Scan(c.value, userGroups, q, covers) == Some(Deny)
  {
    var first := c.value[0];
    assert anonGroup in first.groups * userGroups;
    OnlyLastRuleCounts(first.rules, q, covers);
  }

  /** The first rule-list denies every untolerated request, whatever follows it. */
  ghost predicate DeniesTheRest(first: RuleList, userGroups: set<string>, covers: Coverage) {
    forall later: seq<RuleList>, q: Request ::
      !Tolerated(q) ==> Scan([first] + later, userGroups, q, covers) == Some(Deny)
  }

  /** A request that a restricted last rule does not reach. */
  function Unreached(r: Restriction): Request {
    if r.RpcName? then Access("m", "/m:data", Create) else Invoke("m", "reboot")
  }

  /** A rule-list that lets everything through. */
  function PermitAll(): RuleList {
    RuleList({"*"}, [Rule("*", Unrestricted, AllOperations, Permit)])
  }

  /** If the last rule is restricted, some untolerated request is let through by a later rule-list. */
  lemma RestrictedLastRuleLeaks(first: RuleList, anonGroup: string, userGroups: set<string>, covers: Coverage)
    requires ValidFirstList(first, anonGroup)
    requires first.rules[|first.rules| - 1].restriction != Unrestricted
    ensures var q := Unreached(first.rules[|first.rules| - 1].restriction);
            !Tolerated(q) && Scan([first] + [PermitAll()], userGroups, q, covers) == Some(Permit)
  {
    var q := Unreached(first.rules[|first.rules| - 1].restriction);
    assert !Tolerated(q) by {
      assert |SUBSCRIBED_NOTIFICATIONS| != |"m"|;
    }
    OnlyLastRuleCounts(first.rules, q, covers);
    var lists := [first] + [PermitAll()];
    assert lists[1..] == [PermitAll()];
    assert FirstMatch(PermitAll().rules, q, covers) == Some(Permit);
  }

  /**
  The validator looks at the last rule's action, module and operations, not at its rule-type. Accepted
  configurations keep the promise exactly when that last rule has no rpc-name, notification-name or path.
  */
  lemma PromiseHoldsIffLastRuleUnrestricted(
    first: RuleList, anonGroup: string, userGroups: set<string>, covers: Coverage)
    requires ValidFirstList(first, anonGroup) && anonGroup in userGroups
    ensures DeniesTheRest(first, userGroups, covers) <==> first.rules[|first.rules| - 1].restriction == Unrestricted
  {
    if first.rules[|first.rules| - 1].restriction == Unrestricted {
      forall later: seq<RuleList>, q: Request | !Tolerated(q)
        ensures Scan([first] + later, userGroups, q, covers) == Some(Deny)
      {
        ValidRulesDeny(Some([first] + later), anonGroup, userGroups, q, covers);
      }
    } else {
      RestrictedLastRuleLeaks(first, anonGroup, userGroups, covers);
    }
  }

  // ----- the class -----

  class AnonymousAccess {
    const anonUser: string
    const anonGroup: string
    var anonymousEnabled: bool
    ghost var configs: seq<Config>

    /** The flag follows the configuration that was announced last; before the first one it is off. */
    ghost predicate Valid()
      reads this
    {
      anonymousEnabled <==> configs != [] && ValidAnonymousRules(configs[|configs| - 1], anonGroup)
    }

    constructor (anonUser: string, anonGroup: string)
      ensures Valid() && configs == [] && this.anonUser == anonUser && this.anonGroup == anonGroup
    {
      this.anonUser, this.anonGroup := anonUser, anonGroup;
      anonymousEnabled := false;
      configs := [];
    }

    /** The module-change callback; sysrepo also calls it once for the configuration at start. */
    method OnModuleChange(c: Config)
      requires Valid()
      modifies this
      ensures Valid() && configs == old(configs) + [c]
    {
      anonymousEnabled := ValidAnonymousRules(c, anonGroup);
      configs := configs + [c];
    }

    /** authorize(): the NACM user of the session, or None when access is refused. */
    method Authorize(user: string) returns (nacmUser: Option<string>)
      requires Valid()
      ensures nacmUser == None || nacmUser == Some(user)
      ensures user != anonUser ==> nacmUser.Some?
      ensures user == anonUser ==>
                (nacmUser.Some? <==> configs != [] && ValidAnonymousRules(configs[|configs| - 1], anonGroup))
    {
      if user == anonUser && !anonymousEnabled {
        return None;
      }
      nacmUser := Some(user);
    }
  }

  /**
  Over any history of configuration changes: while the anonymous user is let in, the configuration in
  force confines them to what is tolerated, provided its last anonymous rule is unrestricted.
  */
  lemma AnonymousIsConfined(nacm: AnonymousAccess, userGroups: set<string>, q: Request, covers: Coverage)
    requires nacm.Valid() && nacm.anonymousEnabled && nacm.anonGroup in userGroups && !Tolerated(q)
    ensures nacm.configs != [] && ValidAnonymousRules(nacm.configs[|nacm.configs| - 1], nacm.anonGroup)
    ensures var lists := nacm.configs[|nacm.configs| - 1].value;
            var rules := lists[0].rules;
            rules[|rules| - 1].restriction == Unrestricted ==> Scan(lists, userGroups, q, covers) == Some(Deny)
  {
    var c := nacm.configs[|nacm.configs| - 1];
    var rules := c.value[0].rules;
    if rules[|rules| - 1].restriction == Unrestricted {
      ValidRulesDeny(c, nacm.anonGroup, userGroups, q, covers);
    }
  }
}
