/** The per-validation matching context: the rule table, keyed by rule name
    ignoring case (RFC 5234 section 2.1), and the stack of
    `(rule name, position)` pairs of the rule references being matched,
    which detects left recursion. */
module Contexts {
  import opened Wrappers
  import opened Text
  import opened Errors
  import opened Patterns

  /** A case-insensitive dictionary: each rule is stored under its folded name. */
  type RuleTable = map<string, GrammarRule>

  datatype Frame = Frame(ruleName: string, position: int)

  datatype Context = Context(rules: RuleTable, stack: seq<Frame>)

  /** No two rules have names that are equal ignoring case. */
  predicate NamesDistinct(rules: seq<GrammarRule>) {
    forall i, j :: 0 <= i < j < |rules| ==> Fold(rules[i].name) != Fold(rules[j].name)
  }

  /** `table` holds exactly the first `count` rules, each under its folded name. */
  predicate HoldsPrefix(table: RuleTable, rules: seq<GrammarRule>, count: nat)
    requires count <= |rules|
  {
    && table.Keys == (set j | 0 <= j < count :: Fold(rules[j].name))
    && forall j :: 0 <= j < count ==> table[Fold(rules[j].name)] == rules[j]
  }

  /** `rules.ToDictionary(r => r.Name, StringComparer.OrdinalIgnoreCase)`:
      adds the rules in order and throws on the first name that is already
      present ignoring case. */
  function BuildTable(rules: seq<GrammarRule>): (r: Result<RuleTable, Error>)
    ensures r.Ok? <==> NamesDistinct(rules)
    ensures r.Ok? ==> HoldsPrefix(r.value, rules, |rules|)
  {
    BuildFrom(rules, 0, map[])
  }

  function BuildFrom(rules: seq<GrammarRule>, i: nat, table: RuleTable): (r: Result<RuleTable, Error>)
    requires i <= |rules|
    requires HoldsPrefix(table, rules, i)
    requires NamesDistinct(rules[..i])
    ensures r.Ok? <==> NamesDistinct(rules)
    ensures r.Ok? ==> HoldsPrefix(r.value, rules, |rules|)
    decreases |rules| - i
  {
    if i == |rules| then
      assert rules[..i] == rules;
      Ok(table)
    else
      var key := Fold(rules[i].name);
      if key in table then
        RepeatedKey(rules, i, table);
        Err(ArgumentError("An item with the same key has already been added. Key: " + rules[i].name))
      else
        NewKey(rules, i, table);
        BuildFrom(rules, i + 1, table[key := rules[i]])
  }

  /** A name already in the table repeats an earlier rule's name. */
  lemma RepeatedKey(rules: seq<GrammarRule>, i: nat, table: RuleTable)
    requires i < |rules| && HoldsPrefix(table, rules, i)
    requires Fold(rules[i].name) in table
    ensures !NamesDistinct(rules)
  {
    var j :| 0 <= j < i && Fold(rules[j].name) == Fold(rules[i].name);
  }

  /** Adding a rule whose name is new keeps the table and the names in step
      with one more rule. */
  lemma NewKey(rules: seq<GrammarRule>, i: nat, table: RuleTable)
    requires i < |rules| && HoldsPrefix(table, rules, i) && NamesDistinct(rules[..i])
    requires Fold(rules[i].name) !in table
    ensures HoldsPrefix(table[Fold(rules[i].name) := rules[i]], rules, i + 1)
    ensures NamesDistinct(rules[..i + 1])
  {
    var key := Fold(rules[i].name);
    var table' := table[key := rules[i]];
    assert table'.Keys == (set j | 0 <= j < i + 1 :: Fold(rules[j].name));
    assert forall j :: 0 <= j < i ==> Fold(rules[j].name) != key;
    var longer := rules[..i + 1];
    forall a, b | 0 <= a < b < |longer|
      ensures Fold(longer[a].name) != Fold(longer[b].name)
    {
      if b < i {
        assert longer[a] == rules[..i][a] && longer[b] == rules[..i][b];
      }
    }
  }

  /** The rules determine the table: two tables holding the same rules are equal. */
  lemma TableDetermined(rules: seq<GrammarRule>, t1: RuleTable, t2: RuleTable)
    requires HoldsPrefix(t1, rules, |rules|) && HoldsPrefix(t2, rules, |rules|)
    ensures t1 == t2
  {
    forall k | k in t1 ensures t1[k] == t2[k] {
      var j :| 0 <= j < |rules| && Fold(rules[j].name) == k;
    }
  }

  /** `new GrammarContext(rules)`: the table of the rules and an empty
      recursion stack. */
  function NewContext(rules: seq<GrammarRule>): (r: Result<Context, Error>)
    ensures r.Ok? <==> NamesDistinct(rules)
    ensures r.Ok? ==> r.value.stack == [] && HoldsPrefix(r.value.rules, rules, |rules|)
  {
    var table :- BuildTable(rules);
    Ok(Context(table, []))
  }

  /** The rule stored under `name`, ignoring case. */
  function TryGetRule(table: RuleTable, name: string): (r: Option<GrammarRule>)
    ensures r.Some? <==> Fold(name) in table
  {
    if Fold(name) in table then Some(table[Fold(name)]) else None
  }

  /** Looking a name up in a table built from `rules` finds the rule whose
      name equals it ignoring case, and finds nothing when there is none. */
  lemma LookupIgnoresCase(rules: seq<GrammarRule>, table: RuleTable, name: string)
    requires BuildTable(rules) == Ok(table)
    ensures forall i :: 0 <= i < |rules| && EqualsIgnoreCase(rules[i].name, name) ==>
      TryGetRule(table, name) == Some(rules[i])
    ensures TryGetRule(table, name).None? <==>
      forall i :: 0 <= i < |rules| ==> !EqualsIgnoreCase(rules[i].name, name)
  {
    assert HoldsPrefix(table, rules, |rules|);
  }

  /** `IsInRecursionChain`: scans the stack from its top for an entry with
      the same name ignoring case at the same position. */
  function IsInRecursionChain(stack: seq<Frame>, name: string, position: int): (b: bool)
    ensures b <==> (exists i :: 0 <= i < |stack| &&
                      EqualsIgnoreCase(stack[i].ruleName, name) && stack[i].position == position)
  {
    if |stack| == 0 then false
    else
      var top := stack[|stack| - 1];
      var below := stack[..|stack| - 1];
      assert forall i :: 0 <= i < |below| ==> below[i] == stack[i];
      (EqualsIgnoreCase(top.ruleName, name) && top.position == position)
      || IsInRecursionChain(below, name, position)
  }

  /** The stack's entries as (folded name, position) pairs. */
  ghost function StackPairs(stack: seq<Frame>): set<(string, int)> {
    set i | 0 <= i < |stack| :: (Fold(stack[i].ruleName), stack[i].position)
  }

  /** The recursion check asks whether the folded pair is on the stack. */
  lemma RecursionChainIsMembership(stack: seq<Frame>, name: string, position: int)
    ensures IsInRecursionChain(stack, name, position) <==> (Fold(name), position) in StackPairs(stack)
  {
    if (Fold(name), position) in StackPairs(stack) {
      var i :| 0 <= i < |stack| && (Fold(stack[i].ruleName), stack[i].position) == (Fold(name), position);
      assert EqualsIgnoreCase(stack[i].ruleName, name);
    }
  }

  /** `PushRule`: the pair goes on top of the stack; popping it again
      restores the context. */
  function PushRule(ctx: Context, name: string, position: int): (r: Context)
    ensures r.rules == ctx.rules
    ensures IsInRecursionChain(r.stack, name, position)
    ensures StackPairs(r.stack) == StackPairs(ctx.stack) + {(Fold(name), position)}
    ensures PopRule(r) == ctx
  {
    var r := Context(ctx.rules, ctx.stack + [Frame(name, position)]);
    assert r.stack[|ctx.stack|] == Frame(name, position);
    assert StackPairs(r.stack) == StackPairs(ctx.stack) + {(Fold(name), position)} by {
      forall x | x in StackPairs(r.stack) ensures x in StackPairs(ctx.stack) + {(Fold(name), position)} {
        var i :| 0 <= i < |r.stack| && x == (Fold(r.stack[i].ruleName), r.stack[i].position);
        if i < |ctx.stack| { assert r.stack[i] == ctx.stack[i]; }
      }
      forall x | x in StackPairs(ctx.stack) ensures x in StackPairs(r.stack) {
        var i :| 0 <= i < |ctx.stack| && x == (Fold(ctx.stack[i].ruleName), ctx.stack[i].position);
        assert r.stack[i] == ctx.stack[i];
      }
    }
    assert r.stack[..|r.stack| - 1] == ctx.stack;
    r
  }

  /** `PopRule`: removes the top entry; on an empty stack it does nothing. */
  function PopRule(ctx: Context): (r: Context)
    ensures r.rules == ctx.rules
    ensures |ctx.stack| == 0 ==> r == ctx
    ensures |ctx.stack| > 0 ==> r.stack + [ctx.stack[|ctx.stack| - 1]] == ctx.stack
  {
    if |ctx.stack| > 0 then Context(ctx.rules, ctx.stack[..|ctx.stack| - 1]) else ctx
  }
}
