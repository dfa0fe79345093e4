/**
 * The completion-kind classifier `getType`, identical in both editor
 * components: the tags of a WarpScript function are joined with spaces and
 * matched by substring against an ordered list of keywords; four of the
 * rules exempt one function name.
 */
module Completion {
  import opened Js

  /** The Monaco completion item kinds that the classifier can return. */
  datatype CompletionKind = Enum | Interface | Keyword | Method | Module | Function

  /** `getType(tags, name)`, as the if/else chain of the source. */
  function GetType(tags: seq<string>, name: string): CompletionKind
  {
    var t := Join(tags, " ");
    if Contains(t, "constant") then Enum
    else if Contains(t, "reducer") && name != "REDUCE" then Interface
    else if Contains(t, "mapper") && name != "MAP" then Interface
    else if Contains(t, "bucketize") && name != "BUCKETIZE" then Interface
    else if Contains(t, "filter") && name != "FILTER" then Interface
    else if Contains(t, "control") then Keyword
    else if Contains(t, "operators") then Method
    else if Contains(t, "stack") then Module
    else Function
  }

  // ---------------------------------------------------------------------------
  // The same classifier as a rule table read top to bottom.

  /** A rule fires when its keyword occurs and the name is not its exempt name. */
  datatype Rule = Rule(keyword: string, exempt: Option<string>, kind: CompletionKind)

  const Rules: seq<Rule> := [
    Rule("constant", None, Enum),
    Rule("reducer", Some("REDUCE"), Interface),
    Rule("mapper", Some("MAP"), Interface),
    Rule("bucketize", Some("BUCKETIZE"), Interface),
    Rule("filter", Some("FILTER"), Interface),
    Rule("control", None, Keyword),
    Rule("operators", None, Method),
    Rule("stack", None, Module)
  ]

  predicate Fires(rule: Rule, t: string, name: string)
  {
    Contains(t, rule.keyword) && (rule.exempt.None? || name != rule.exempt.value)
  }

  /** The kind of the first rule that fires, `Function` when none does. */
  function FirstFiring(rules: seq<Rule>, t: string, name: string): CompletionKind
  {
    if rules == [] then Function
    else if Fires(rules[0], t, name) then rules[0].kind
    else FirstFiring(rules[1..], t, name)
  }

  /** `FirstFiring` picks the earliest firing rule, and falls back only when none fires. */
  lemma {:induction false} FirstFiringIsFirst(rules: seq<Rule>, t: string, name: string, i: int)
    requires 0 <= i < |rules| && Fires(rules[i], t, name)
    requires forall j :: 0 <= j < i ==> !Fires(rules[j], t, name)
    ensures FirstFiring(rules, t, name) == rules[i].kind
  {
    if i > 0 {
      assert !Fires(rules[0], t, name);
      FirstFiringIsFirst(rules[1..], t, name, i - 1);
    }
  }

  lemma {:induction false} FirstFiringNoneFires(rules: seq<Rule>, t: string, name: string)
    requires forall j :: 0 <= j < |rules| ==> !Fires(rules[j], t, name)
    ensures FirstFiring(rules, t, name) == Function
  {
    if rules != [] {
      FirstFiringNoneFires(rules[1..], t, name);
    }
  }

  /** The if/else chain is the rule table evaluated top to bottom. */
  lemma GetTypeFollowsRules(tags: seq<string>, name: string)
    ensures GetType(tags, name) == FirstFiring(Rules, Join(tags, " "), name)
  {
    var t := Join(tags, " ");
    assert Rules[0..] == Rules;
    FirstFiringFrom(Rules, 0, t, name);
    FirstFiringFrom(Rules, 1, t, name);
    FirstFiringFrom(Rules, 2, t, name);
    FirstFiringFrom(Rules, 3, t, name);
    FirstFiringFrom(Rules, 4, t, name);
    FirstFiringFrom(Rules, 5, t, name);
    FirstFiringFrom(Rules, 6, t, name);
    FirstFiringFrom(Rules, 7, t, name);
  }

  /** One step of the table walk, from rule `i` on. */
  lemma FirstFiringFrom(rules: seq<Rule>, i: int, t: string, name: string)
    requires 0 <= i < |rules|
    ensures FirstFiring(rules[i..], t, name)
         == if Fires(rules[i], t, name) then rules[i].kind else FirstFiring(rules[i + 1..], t, name)
  {
    assert rules[i..][1..] == rules[i + 1..];
  }

  // ---------------------------------------------------------------------------
  // Properties of the classifier.

  /** The keywords that the rules look for. */
  const Keywords: seq<string> := ["constant", "reducer", "mapper", "bucketize", "filter", "control", "operators", "stack"]

  /** A tag containing `constant` makes the result `Enum`, and only such a tag does, whatever the name. */
  lemma GetTypeEnumIff(tags: seq<string>, name: string)
    ensures GetType(tags, name) == Enum <==> exists j :: 0 <= j < |tags| && Contains(tags[j], "constant")
  {
    ContainsJoin(tags, ' ', "constant");
  }

  /** Without any keyword in any tag the result is `Function`. */
  lemma GetTypeNoKeywordIsFunction(tags: seq<string>, name: string)
    requires forall j, k :: 0 <= j < |tags| && 0 <= k < |Keywords| ==> !Contains(tags[j], Keywords[k])
    ensures GetType(tags, name) == Function
  {
    forall k | 0 <= k < |Keywords|
      ensures !Contains(Join(tags, " "), Keywords[k])
    {
      ContainsJoin(tags, ' ', Keywords[k]);
    }
    assert !Contains(Join(tags, " "), Keywords[0]);
    assert !Contains(Join(tags, " "), Keywords[1]);
    assert !Contains(Join(tags, " "), Keywords[2]);
    assert !Contains(Join(tags, " "), Keywords[3]);
    assert !Contains(Join(tags, " "), Keywords[4]);
    assert !Contains(Join(tags, " "), Keywords[5]);
    assert !Contains(Join(tags, " "), Keywords[6]);
    assert !Contains(Join(tags, " "), Keywords[7]);
  }

  /** The exempt name of rule `k` (1 to 4): `REDUCE`, `MAP`, `BUCKETIZE`, `FILTER`. */
  predicate IsExemptName(name: string)
  {
    name == "REDUCE" || name == "MAP" || name == "BUCKETIZE" || name == "FILTER"
  }

  /**
   * A function named after its own category, whose tags hold no other of the
   * four Interface keywords and no `constant`, is not an Interface: it is
   * classified by the control / operators / stack rules that follow.
   */
  lemma ExemptNameFallsThrough(tags: seq<string>, name: string, k: int)
    requires 1 <= k <= 4 && Rules[k].exempt == Some(name)
    requires forall j :: 0 <= j <= 4 && j != k ==> !Contains(Join(tags, " "), Rules[j].keyword)
    ensures GetType(tags, name) == FirstFiring(Rules[5..], Join(tags, " "), name)
    ensures GetType(tags, name) != Interface
  {
    var t := Join(tags, " ");
    forall j | 0 <= j < 5
      ensures !Fires(Rules[j], t, name)
    {
      if j == k {
        assert name == Rules[j].exempt.value;
      }
    }
    FirstFiringSkip(Rules, 0, 5, t, name);
    assert Rules[0..] == Rules;
    GetTypeFollowsRules(tags, name);
    var later := Rules[5..];
    FirstFiringKinds(later, t, name);
    assert forall j :: 0 <= j < |later| ==> later[j].kind != Interface;
  }

  /** Rules that do not fire are skipped. */
  lemma {:induction false} FirstFiringSkip(rules: seq<Rule>, i: int, n: int, t: string, name: string)
    requires 0 <= i <= n <= |rules|
    requires forall j :: i <= j < n ==> !Fires(rules[j], t, name)
    ensures FirstFiring(rules[i..], t, name) == FirstFiring(rules[n..], t, name)
    decreases n - i
  {
    if i < n {
      FirstFiringFrom(rules, i, t, name);
      FirstFiringSkip(rules, i + 1, n, t, name);
    }
  }

  /** The table walk returns the kind of some rule, or `Function`. */
  lemma {:induction false} FirstFiringKinds(rules: seq<Rule>, t: string, name: string)
    ensures FirstFiring(rules, t, name) == Function
         || exists j :: 0 <= j < |rules| && FirstFiring(rules, t, name) == rules[j].kind
  {
    if rules != [] && !Fires(rules[0], t, name) {
      FirstFiringKinds(rules[1..], t, name);
      if FirstFiring(rules[1..], t, name) != Function {
        var j :| 0 <= j < |rules[1..]| && FirstFiring(rules[1..], t, name) == rules[1..][j].kind;
        assert rules[j + 1] == rules[1..][j];
      }
    }
  }

  /** With only its own category keyword among the tags, an exempt function is a `Function`. */
  lemma ExemptNameOnlyOwnKeyword(tags: seq<string>, name: string, k: int)
    requires 1 <= k <= 4 && Rules[k].exempt == Some(name)
    requires forall j :: 0 <= j < |Rules| && j != k ==> !Contains(Join(tags, " "), Rules[j].keyword)
    ensures GetType(tags, name) == Function
  {
    var t := Join(tags, " ");
    ExemptNameFallsThrough(tags, name, k);
    assert !Contains(t, Rules[5].keyword) && !Contains(t, Rules[6].keyword) && !Contains(t, Rules[7].keyword);
    var later := Rules[5..];
    forall j | 0 <= j < |later| ensures !Fires(later[j], t, name) {
      assert later[j] == Rules[j + 5];
    }
    FirstFiringNoneFires(later, t, name);
  }

  /** The name only matters when it is one of the four exempt names. */
  lemma GetTypeNameIrrelevant(tags: seq<string>, n1: string, n2: string)
    requires !IsExemptName(n1) && !IsExemptName(n2)
    ensures GetType(tags, n1) == GetType(tags, n2)
  {
  }
}
