/**
  iptables_manager.py: reconciling one table of an `iptables-save` dump with the
  chains and rules a manager has been asked to add or remove.

  The dump is the text `iptables-save -c` prints; the result is the text handed to
  `iptables-restore -c`. Both process calls are left out: the dump is a parameter
  and the restore input is the result.
 */
module Iptables {
  import opened Wrappers
  import opened Text
  import opened Sorting
  import Lists

  /** A wrapped chain name is `<wrap name>-<name>`: 28 - (16 + 1) characters remain. */
  const MaxChainLenWrap: nat := 11
  /** iptables' own limit on chain names. */
  const MaxChainLenNoWrap: nat := 28
  /** `binary_name[:16]` */
  const MaxWrapNameLen: nat := 16

  datatype IptablesError =
    | CommitMissing       // `lines[start:].index('COMMIT')` raises ValueError
    | ChainNameMissing    // `None.strip()` in add_chain when the manager does not wrap
    | ChainNameTooLong    // the ValueError add_chain raises itself

  // ---------------------------------------------------------------- names and rules

  /** `get_chain_name`: the chain name cut to the limit for wrapped or unwrapped chains. */
  function GetChainName(chainName: string, wrap: bool): (r: string)
    ensures var limit := if wrap then MaxChainLenWrap else MaxChainLenNoWrap;
            |r| <= |chainName| && r == chainName[..|r|] && |r| == (if |chainName| <= limit then |chainName| else limit)
  {
    Take(chainName, if wrap then MaxChainLenWrap else MaxChainLenNoWrap)
  }

  lemma GetChainNameIdempotent(chainName: string, wrap: bool)
    ensures GetChainName(GetChainName(chainName, wrap), wrap) == GetChainName(chainName, wrap)
  {
  }

  /** Python's `'%s' % x` for an optional string. */
  function Render(o: Option<string>): string {
    if o.Some? then o.value else "None"
  }

  datatype IptablesRule = IptablesRule(chain: string, rule: string, wrap: bool) {
    /** `str(rule)`: the `-A` line iptables-restore reads. */
    function ToString(): string {
      "-A " + chain + " " + rule
    }
  }

  /** Reads an `-A <chain> <rule>` line back into its chain and rule text. */
  function ParseRuleLine(s: string): Option<(string, string)> {
    if !StartsWith(s, "-A ") then None
    else
      var parts := SplitMax(s[3..], " ", 1);
      if |parts| < 2 then None else Some((parts[0], parts[1]))
  }

  /** The `-A` line of a rule names its chain and its rule text, and both can be read back. */
  lemma RuleLineRoundTrip(r: IptablesRule)
    requires ' ' !in r.chain
    ensures ParseRuleLine(r.ToString()) == Some((r.chain, r.rule))
  {
    var s := r.ToString();
    assert s[..3] == "-A ";
    assert s[3..] == r.chain + [' '] + r.rule;
    SplitMaxHead(r.chain, ' ', r.rule, 1);
  }

  // ---------------------------------------------------------------- Python list slices

  /** Python's normalisation of a slice bound against a list of length `n`. */
  function Clamp(i: int, n: nat): (r: nat)
    ensures r <= n
    ensures 0 <= i <= n ==> r == i
    ensures i < 0 && -i <= n ==> r == n + i
  {
    if i < 0 then (if i + n < 0 then 0 else i + n) else if i > n then n else i
  }

  /** `xs[i:j]` */
  function Slice(xs: seq<string>, i: int, j: int): (r: seq<string>)
    ensures var lo := Clamp(i, |xs|); var hi := Clamp(j, |xs|);
            r == if lo < hi then xs[lo..hi] else []
  {
    var lo := Clamp(i, |xs|);
    var hi := Clamp(j, |xs|);
    if lo < hi then xs[lo..hi] else []
  }

  /** The position `xs[i:j] = ys` starts at, and the one it resumes the old list from. */
  function SpliceBounds(n: nat, i: int, j: int): (b: (nat, nat))
    ensures b.0 <= b.1 <= n
  {
    var lo := Clamp(i, n);
    var hi := Clamp(j, n);
    (lo, if hi < lo then lo else hi)
  }

  /** `xs[i:j] = ys`: the lines before the region, `ys`, then the lines after it. */
  function SliceAssign(xs: seq<string>, i: int, j: int, ys: seq<string>): (r: seq<string>)
    ensures var (lo, hi) := SpliceBounds(|xs|, i, j);
            |r| == lo + |ys| + (|xs| - hi) &&
            r[..lo] == xs[..lo] && r[lo..lo + |ys|] == ys && r[lo + |ys|..] == xs[hi..]
  {
    var (lo, hi) := SpliceBounds(|xs|, i, j);
    xs[..lo] + ys + xs[hi..]
  }

  /** `xs[i:i] = ys` inserts `ys` before position `i`. */
  lemma InsertAt(xs: seq<string>, i: int, ys: seq<string>)
    ensures var lo := Clamp(i, |xs|);
            SliceAssign(xs, i, i, ys) == xs[..lo] + ys + xs[lo..]
  {
  }

  /** Writing back the slice just read leaves the list as it was. */
  lemma SliceAssignSame(xs: seq<string>, i: int, j: int)
    ensures SliceAssign(xs, i, j, Slice(xs, i, j)) == xs
  {
    var (lo, hi) := SpliceBounds(|xs|, i, j);
    assert Slice(xs, i, j) == xs[lo..hi];
    assert xs[..lo] + xs[lo..hi] + xs[hi..] == xs;
  }

  // ---------------------------------------------------------------- _find_table

  /** `xs.index(x)`, or None where Python raises ValueError. */
  function IndexOf(xs: seq<string>, x: string): (r: Option<nat>)
    ensures r.None? <==> x !in xs
    ensures r.Some? ==> r.value < |xs| && xs[r.value] == x && x !in xs[..r.value]
  {
    if xs == [] then None
    else if xs[0] == x then Some(0)
    else
      var rest := IndexOf(xs[1..], x);
      assert xs[1..] == xs[1..][..|xs| - 1];
      if rest.None? then None
      else
        assert xs[..rest.value + 1] == [xs[0]] + xs[1..][..rest.value];
        Some(rest.value + 1)
  }

  /**
    `_find_table`: the slice of the dump holding one table, from the line before
    `*<table>` to the line after the first `COMMIT` that follows; (0, 0), an empty
    region, when the header is missing.
   */
  function FindTable(lines: seq<string>, tableName: string): (r: Result<(int, int), IptablesError>)
    ensures "*" + tableName !in lines ==> r == Success((0, 0))
    ensures "*" + tableName in lines ==>
              var h := IndexOf(lines, "*" + tableName).value;
              var from := Clamp(h - 1, |lines|);
              (r.Failure? <==> "COMMIT" !in lines[from..]) &&
              (r.Success? && h == 0 ==> r.value == (-1, 1)) &&
              (r.Success? && h > 0 ==>
                 var c := r.value.1 - 2;
                 r.value.0 == h - 1 && from <= c < |lines| && lines[c] == "COMMIT" &&
                 "COMMIT" !in lines[from..c])
  {
    match IndexOf(lines, "*" + tableName)
    case None => Success((0, 0))
    case Some(h) =>
      var start := h - 1;
      var from := Clamp(start, |lines|);
      match IndexOf(lines[from..], "COMMIT")
      case None => Failure(CommitMissing)
      case Some(c) =>
        assert lines[from..][..c] == lines[from..from + c];
        Success((start, c + start + 2))
  }

  // ---------------------------------------------------------------- _find_rules_index

  /** A chain declaration line of iptables-save, such as `:INPUT ACCEPT [0:0]`. */
  predicate IsDecl(line: string) {
    |line| > 0 && line[0] == ':'
  }

  /** The first index at or after `from` whose line is (or is not) a declaration, or `|lines|`. */
  function FirstFrom(lines: seq<string>, from: nat, decl: bool): (r: nat)
    requires from <= |lines|
    ensures from <= r <= |lines|
    ensures forall k :: from <= k < r ==> IsDecl(lines[k]) != decl
    ensures r < |lines| ==> IsDecl(lines[r]) == decl
    decreases |lines| - from
  {
    if from == |lines| || IsDecl(lines[from]) == decl then from else FirstFrom(lines, from + 1, decl)
  }

  /**
    Where `_find_rules_index` says new lines go: the first non-declaration after the
    first run of declarations; the last index when that run reaches the end; 2 when
    there is no declaration at all.
   */
  function RulesIndex(lines: seq<string>): nat {
    var f := FirstFrom(lines, 0, true);
    if f == |lines| then 2
    else
      var g := FirstFrom(lines, f + 1, false);
      if g == |lines| then |lines| - 1 else g
  }

  /** The index `RulesIndex` gives, stated without the search functions. */
  lemma RulesIndexSpec(lines: seq<string>)
    ensures (forall k :: 0 <= k < |lines| ==> !IsDecl(lines[k])) ==> RulesIndex(lines) == 2
    ensures forall f :: 0 <= f < |lines| && IsDecl(lines[f]) && (forall k :: 0 <= k < f ==> !IsDecl(lines[k])) ==>
              var r := RulesIndex(lines);
              f <= r < |lines| &&
              (forall k :: f <= k < r ==> IsDecl(lines[k])) &&
              (IsDecl(lines[r]) ==> r == |lines| - 1)
  {
    forall f | 0 <= f < |lines| && IsDecl(lines[f]) && (forall k :: 0 <= k < f ==> !IsDecl(lines[k]))
      ensures var r := RulesIndex(lines);
              f <= r < |lines| && (forall k :: f <= k < r ==> IsDecl(lines[k])) && (IsDecl(lines[r]) ==> r == |lines| - 1)
    {
      FirstDeclIs(lines, f);
      RulesIndexFrom(lines, f);
    }
  }

  /** The first declaration is the one `FirstFrom` finds. */
  lemma FirstDeclIs(lines: seq<string>, f: nat)
    requires f < |lines| && IsDecl(lines[f]) && forall k :: 0 <= k < f ==> !IsDecl(lines[k])
    ensures FirstFrom(lines, 0, true) == f
  {
    var f0 := FirstFrom(lines, 0, true);
    assert !(f0 < f) && !(f < f0);
  }

  /** From the first declaration on, the rules index ends the run of declarations. */
  lemma RulesIndexFrom(lines: seq<string>, f: nat)
    requires f < |lines| && FirstFrom(lines, 0, true) == f
    ensures var r := RulesIndex(lines);
            f <= r < |lines| && (forall k :: f <= k < r ==> IsDecl(lines[k])) && (IsDecl(lines[r]) ==> r == |lines| - 1)
  {
    var g := FirstFrom(lines, f + 1, false);
    assert IsDecl(lines[f]);
    assert forall k :: f + 1 <= k < g ==> IsDecl(lines[k]);
    if g == |lines| {
      assert RulesIndex(lines) == |lines| - 1;
    } else {
      assert RulesIndex(lines) == g && !IsDecl(lines[g]);
    }
  }

  /** `_find_rules_index`: one pass, with a flag for having seen a declaration. */
  method FindRulesIndex(lines: seq<string>) returns (rulesIndex: nat)
    ensures rulesIndex == RulesIndex(lines)
  {
    var seenChains := false;
    rulesIndex := 0;
    var i := 0;
    while i < |lines|
      invariant 0 <= i <= |lines|
      invariant rulesIndex == if i == 0 then 0 else i - 1
      invariant !seenChains ==> FirstFrom(lines, 0, true) >= i
      invariant seenChains ==> FirstFrom(lines, 0, true) < i &&
                               FirstFrom(lines, FirstFrom(lines, 0, true) + 1, false) >= i
    {
      rulesIndex := i;
      if !seenChains {
        if IsDecl(lines[i]) {
          seenChains := true;
        }
      } else if !IsDecl(lines[i]) {
        break;
      }
      i := i + 1;
    }
    if !seenChains {
      rulesIndex := 2;
    }
  }

  // ---------------------------------------------------------------- _find_last_entry

  /** The line, stripped, contains `needle`: the substring test `_modify_rules` uses throughout. */
  predicate Mentions(line: string, needle: string) {
    Contains(Strip(line), needle)
  }

  function MentionsFn(needle: string): string -> bool {
    line => Mentions(line, needle)
  }

  /** `_find_last_entry`: the last line that mentions `needle`, stripped; None when none does. */
  function FindLastEntry(lines: seq<string>, needle: string): Option<string> {
    match Lists.LastWhere(lines, MentionsFn(needle))
    case None => None
    case Some(k) => Some(Strip(lines[k]))
  }

  /** The entry found is the last line mentioning `needle`, and there is one exactly when some line does. */
  lemma FindLastEntrySpec(lines: seq<string>, needle: string)
    ensures FindLastEntry(lines, needle).None? <==> forall k :: 0 <= k < |lines| ==> !Mentions(lines[k], needle)
    ensures FindLastEntry(lines, needle).Some? ==>
              exists k :: 0 <= k < |lines| && FindLastEntry(lines, needle).value == Strip(lines[k]) &&
                          Mentions(lines[k], needle) && forall j :: k < j < |lines| ==> !Mentions(lines[j], needle)
  {
    var r := Lists.LastWhere(lines, MentionsFn(needle));
    if r.Some? {
      assert Mentions(lines[r.value], needle);
    }
  }

  // ---------------------------------------------------------------- get_chain_rules / clean_chain_rules

  /** A rule line of `iptables-save -c`, which starts with its `[packets:bytes]` counters. */
  predicate IsCounted(line: string) {
    |line| > 0 && line[0] == '['
  }

  function ChainRuleFn(chain: string): string -> bool {
    line => IsCounted(line) && Mentions(line, Strip(chain))
  }

  function OtherRuleFn(chain: string): string -> bool {
    line => !Mentions(line, Strip(chain)) && IsCounted(line)
  }

  /** `get_chain_rules`: the counted lines that mention the chain, in order. */
  function GetChainRules(chain: string, lines: seq<string>): seq<string> {
    Lists.Filter(lines, ChainRuleFn(chain))
  }

  /** `clean_chain_rules`: the counted lines that do not mention the chain, in order. */
  function CleanChainRules(chain: string, lines: seq<string>): seq<string> {
    Lists.Filter(lines, OtherRuleFn(chain))
  }

  /** A line is one of the chain's rules exactly when it is a counted line that mentions the chain. */
  lemma GetChainRulesSpec(chain: string, lines: seq<string>)
    ensures forall x :: x in GetChainRules(chain, lines) <==> x in lines && IsCounted(x) && Mentions(x, Strip(chain))
  {
    Lists.FilterMembers(lines, ChainRuleFn(chain));
  }

  /** A line survives the cleaning exactly when it is a counted line that does not mention the chain. */
  lemma CleanChainRulesSpec(chain: string, lines: seq<string>)
    ensures forall x :: x in CleanChainRules(chain, lines) <==> x in lines && IsCounted(x) && !Mentions(x, Strip(chain))
  {
    Lists.FilterMembers(lines, OtherRuleFn(chain));
  }

  /** Every counted line goes to exactly one of the two lists. */
  lemma ChainRulesPartition(chain: string, lines: seq<string>)
    ensures |GetChainRules(chain, lines)| + |CleanChainRules(chain, lines)| == |Lists.Filter(lines, IsCounted)|
  {
    Lists.FilterPartition(lines, IsCounted, ChainRuleFn(chain), OtherRuleFn(chain));
  }

  // ---------------------------------------------------------------- _modify_rules

  /** The declaration `_modify_rules` writes for a new chain. */
  function DeclLine(name: string): string {
    ":" + name + " - [0:0]"
  }

  /** The declaration for one chain, or none when some line already mentions it. */
  function ChainDecl(lines: seq<string>, chain: string): seq<string> {
    var name := Strip(chain);
    var dup := FindLastEntry(lines, name);
    if dup.Some? && dup.value != "" then [] else [DeclLine(name)]
  }

  /** `our_chains` for the chains in the order given. */
  function ChainDecls(lines: seq<string>, ordered: seq<string>): seq<string>
    decreases |ordered|
  {
    if ordered == [] then []
    else ChainDecls(lines, ordered[..|ordered| - 1]) + ChainDecl(lines, ordered[|ordered| - 1])
  }

  /** A chain with a non-empty name is declared exactly when no line mentions it yet. */
  lemma ChainDeclSkipsPresent(lines: seq<string>, chain: string)
    requires Strip(chain) != ""
    ensures ChainDecl(lines, chain) == [] <==> exists k :: 0 <= k < |lines| && Mentions(lines[k], Strip(chain))
    ensures ChainDecl(lines, chain) != [] ==> ChainDecl(lines, chain) == [DeclLine(Strip(chain))]
  {
    FindLastEntrySpec(lines, Strip(chain));
    var dup := FindLastEntry(lines, Strip(chain));
    if dup.Some? {
      ContainsNeedsLength(dup.value, Strip(chain));
    }
  }

  /** The line `_modify_rules` writes for a rule: with zero counters unless some line already mentions it. */
  function RuleLine(lines: seq<string>, rule: IptablesRule): string {
    var text := Strip(rule.ToString());
    var dup := Lists.Filter(lines, MentionsFn(text));
    if dup == [] then "[0:0] " + text else text
  }

  /** A rule already mentioned is written without counters, any other with zero counters. */
  lemma RuleLineSpec(lines: seq<string>, rule: IptablesRule)
    ensures var text := Strip(rule.ToString());
            RuleLine(lines, rule) ==
            if exists k :: 0 <= k < |lines| && Mentions(lines[k], text) then text else "[0:0] " + text
  {
    var text := Strip(rule.ToString());
    var dup := Lists.Filter(lines, MentionsFn(text));
    Lists.FilterMembers(lines, MentionsFn(text));
    if dup != [] {
      assert dup[0] in dup;
      assert MentionsFn(text)(dup[0]) && dup[0] in lines;
      var k :| 0 <= k < |lines| && lines[k] == dup[0];
      assert Mentions(lines[k], text);
      assert RuleLine(lines, rule) == text;
    } else {
      forall k | 0 <= k < |lines| ensures !Mentions(lines[k], text) {
        assert lines[k] in lines;
        assert lines[k] !in dup;
      }
      assert RuleLine(lines, rule) == "[0:0] " + text;
    }
  }

  function RuleLineFn(lines: seq<string>): IptablesRule -> string {
    rule => RuleLine(lines, rule)
  }

  /** `our_rules`: one line per requested rule, in request order. */
  function RuleLines(lines: seq<string>, rules: seq<IptablesRule>): seq<string> {
    Lists.Map(rules, RuleLineFn(lines))
  }

  /** A line is filtered out when it mentions some stripped pattern. */
  predicate Removed(line: string, patterns: set<string>) {
    exists p :: p in patterns && Mentions(line, Strip(p))
  }

  function KeepFn(patterns: set<string>): string -> bool {
    line => !Removed(line, patterns)
  }

  /** The list comprehensions of `_modify_rules` that drop removed chains and rules. */
  function RemoveMatching(lines: seq<string>, patterns: set<string>): (r: seq<string>)
    ensures |r| <= |lines|
  {
    Lists.Filter(lines, KeepFn(patterns))
  }

  /** A line survives exactly when it mentions none of the stripped patterns. */
  lemma RemoveMatchingSpec(lines: seq<string>, patterns: set<string>)
    ensures forall x :: x in RemoveMatching(lines, patterns) <==> x in lines && !Removed(x, patterns)
  {
    Lists.FilterMembers(lines, KeepFn(patterns));
  }

  /** Filtering works line by line, so it keeps the relative order of the lines it keeps. */
  lemma RemoveMatchingAppend(xs: seq<string>, ys: seq<string>, patterns: set<string>)
    ensures RemoveMatching(xs + ys, patterns) == RemoveMatching(xs, patterns) + RemoveMatching(ys, patterns)
  {
    Lists.FilterAppend(xs, ys, KeepFn(patterns));
  }

  /** Lines that match no pattern all survive. */
  lemma RemoveMatchingKeepsAll(xs: seq<string>, patterns: set<string>)
    requires forall k :: 0 <= k < |xs| ==> !Removed(xs[k], patterns)
    ensures RemoveMatching(xs, patterns) == xs
  {
    Lists.FilterKeepsAll(xs, KeepFn(patterns));
  }

  /** Filtering by one set of patterns and then another is filtering by both at once. */
  lemma RemoveMatchingCompose(xs: seq<string>, a: set<string>, b: set<string>)
    ensures RemoveMatching(RemoveMatching(xs, a), b) == RemoveMatching(xs, a + b)
  {
    forall x
      ensures KeepFn(a + b)(x) == (KeepFn(a)(x) && KeepFn(b)(x))
    {
      if Removed(x, a + b) {
        var p :| p in a + b && Mentions(x, Strip(p));
        assert p in a || p in b;
      }
    }
    Lists.FilterCompose(xs, KeepFn(a), KeepFn(b), KeepFn(a + b));
  }

  /** Everything one `_modify_rules` call is asked to do to a table's region. */
  datatype Changes = Changes(chains: set<string>, rules: seq<IptablesRule>, removals: set<string>)

  /** `_modify_rules` for a table's own lists: removals are the removed chains and the removed rules. */
  function TableChanges(chains: set<string>, removeChains: set<string>, rules: seq<IptablesRule>,
                        removeRules: seq<string>): Changes {
    Changes(chains, rules, removeChains + Lists.Elements(removeRules))
  }

  /**
    `_modify_rules` with an `obj` as written (line 205): it reads `obj.remove_chains`
    where it means `obj.remove_rules`, so the removed rules of `obj` are ignored.
   */
  function ObjChangesAsWritten(chains: set<string>, removeChains: set<string>, rules: seq<IptablesRule>,
                               removeRules: seq<string>): Changes {
    Changes(chains, rules, removeChains + removeChains)
  }

  /** The first step of `_modify_rules`: declarations for the new chains, in sorted order, at the rules index. */
  ghost function AddChains(current: seq<string>, chains: set<string>): seq<string> {
    if chains == {} then current
    else
      var i := RulesIndex(current);
      SliceAssign(current, i, i, ChainDecls(current, SortedSeq(chains)))
  }

  /** The second step: one line per rule, at the rules index of the lines after the first step. */
  function AddRules(lines: seq<string>, rules: seq<IptablesRule>): seq<string> {
    if rules == [] then lines
    else
      var j := RulesIndex(lines);
      SliceAssign(lines, j, j, RuleLines(lines, rules))
  }

  /** `_modify_rules`: add the chains, then the rules, then drop every line a removal mentions. */
  ghost function ModifyLines(current: seq<string>, changes: Changes): seq<string> {
    RemoveMatching(AddRules(AddChains(current, changes.chains), changes.rules), changes.removals)
  }

  /** With nothing to add or remove the region comes back unchanged. */
  lemma ModifyNothing(current: seq<string>)
    ensures ModifyLines(current, Changes({}, [], {})) == current
  {
    RemoveMatchingKeepsAll(current, {});
  }

  /** New rules go in as one block, in request order, at the rules index. */
  lemma RulesInsertedAsBlock(current: seq<string>, rules: seq<IptablesRule>)
    requires rules != []
    ensures var k := Clamp(RulesIndex(current), |current|);
            ModifyLines(current, Changes({}, rules, {})) ==
            current[..k] + RuleLines(current, rules) + current[k..]
  {
    var out := AddRules(current, rules);
    RemoveMatchingKeepsAll(out, {});
  }

  lemma SortedSingleton(c: string)
    ensures SortedSeq({c}) == [c]
  {
    assert Least({c}) == c;
    assert {c} - {c} == {};
  }

  /** Adding only chains is the first step alone. */
  lemma ModifyChainsOnly(current: seq<string>, c: string)
    ensures var i := RulesIndex(current);
            ModifyLines(current, Changes({c}, [], {})) == SliceAssign(current, i, i, ChainDecl(current, c))
  {
    SortedSingleton(c);
    assert ChainDecls(current, [c]) == ChainDecl(current, c);
    RemoveMatchingKeepsAll(AddChains(current, {c}), {});
  }

  /** The declaration written for a chain mentions the chain. */
  lemma DeclMentions(name: string)
    requires name != "" && !IsSpace(name[0])
    ensures Mentions(DeclLine(name), name)
  {
    var decl := DeclLine(name);
    StripKeeps(decl);
    assert decl == [':'] + name + " - [0:0]";
    ContainsMiddle([':'], name, " - [0:0]");
  }

  /** When the declaration is new it sits at the rules index. */
  lemma NewDeclAtRulesIndex(current: seq<string>, c: string)
    requires Strip(c) != ""
    requires ChainDecl(current, c) != []
    ensures var i := RulesIndex(current);
            var once := SliceAssign(current, i, i, ChainDecl(current, c));
            var lo := Clamp(i, |current|);
            lo < |once| && once[lo] == DeclLine(Strip(c))
  {
    var i := RulesIndex(current);
    var decls := ChainDecl(current, c);
    var lo := Clamp(i, |current|);
    InsertAt(current, i, decls);
    ChainDeclSkipsPresent(current, c);
    assert (current[..lo] + decls + current[lo..])[lo] == decls[0];
  }

  /** The declaration of a chain with a non-empty name mentions the chain. */
  lemma StrippedDeclMentions(c: string)
    requires Strip(c) != ""
    ensures Mentions(DeclLine(Strip(c)), Strip(c))
  {
    StripEnds(c);
    DeclMentions(Strip(c));
  }

  /** A chain that gets a new declaration is mentioned by it. */
  lemma MentionedByNewDecl(current: seq<string>, c: string) returns (k: nat)
    requires Strip(c) != ""
    requires ChainDecl(current, c) != []
    ensures var i := RulesIndex(current);
            var once := SliceAssign(current, i, i, ChainDecl(current, c));
            k < |once| && Mentions(once[k], Strip(c))
  {
    NewDeclAtRulesIndex(current, c);
    StrippedDeclMentions(c);
    k := Clamp(RulesIndex(current), |current|);
  }

  /** A chain that gets no declaration was already mentioned, and the lines are unchanged. */
  lemma MentionedWithoutDecl(current: seq<string>, c: string) returns (k: nat)
    requires Strip(c) != ""
    requires ChainDecl(current, c) == []
    ensures var i := RulesIndex(current);
            var once := SliceAssign(current, i, i, ChainDecl(current, c));
            k < |once| && Mentions(once[k], Strip(c))
  {
    var i := RulesIndex(current);
    ChainDeclSkipsPresent(current, c);
    InsertAt(current, i, []);
    var lo := Clamp(i, |current|);
    assert current[..lo] + [] + current[lo..] == current;
    k :| k < |current| && Mentions(current[k], Strip(c));
  }

  /** After a chain is added some line mentions it: its new declaration, or the line that made it unnecessary. */
  lemma ChainMentionedAfterAdd(current: seq<string>, c: string) returns (k: nat)
    requires Strip(c) != ""
    ensures var i := RulesIndex(current);
            var once := SliceAssign(current, i, i, ChainDecl(current, c));
            k < |once| && Mentions(once[k], Strip(c))
  {
    if ChainDecl(current, c) == [] {
      k := MentionedWithoutDecl(current, c);
    } else {
      k := MentionedByNewDecl(current, c);
    }
  }

  /** Adding a chain that some line already mentions changes nothing. */
  lemma AddPresentChain(lines: seq<string>, c: string, k: nat)
    requires Strip(c) != ""
    requires k < |lines| && Mentions(lines[k], Strip(c))
    ensures ModifyLines(lines, Changes({c}, [], {})) == lines
  {
    var i := RulesIndex(lines);
    assert ChainDecl(lines, c) == [] by {
      ChainDeclSkipsPresent(lines, c);
    }
    assert ModifyLines(lines, Changes({c}, [], {})) == SliceAssign(lines, i, i, ChainDecl(lines, c)) by {
      ModifyChainsOnly(lines, c);
    }
    assert SliceAssign(lines, i, i, []) == lines by {
      InsertAt(lines, i, []);
      var lo := Clamp(i, |lines|);
      assert lines[..lo] + [] + lines[lo..] == lines;
    }
  }

  /** Declaring the same chain again adds nothing: the first declaration already mentions it. */
  lemma AddChainIdempotent(current: seq<string>, c: string)
    requires Strip(c) != ""
    ensures var once := ModifyLines(current, Changes({c}, [], {}));
            ModifyLines(once, Changes({c}, [], {})) == once
  {
    var i := RulesIndex(current);
    var once := ModifyLines(current, Changes({c}, [], {}));
    assert once == SliceAssign(current, i, i, ChainDecl(current, c)) by {
      ModifyChainsOnly(current, c);
    }
    var k := ChainMentionedAfterAdd(current, c);
    AddPresentChain(once, c, k);
  }

  /** Removing the one chain drops exactly the lines that mention it. */
  lemma RemoveOneChain(xs: seq<string>, c: string)
    requires forall k :: 0 <= k < |xs| ==> !Mentions(xs[k], Strip(c))
    ensures RemoveMatching(xs, {c}) == xs
  {
    forall k | 0 <= k < |xs| ensures !Removed(xs[k], {c}) {
    }
    RemoveMatchingKeepsAll(xs, {c});
  }

  /** A chain no line mentions gets its declaration at the rules index. */
  lemma FreshChainAdded(current: seq<string>, c: string)
    requires Strip(c) != ""
    requires forall k :: 0 <= k < |current| ==> !Mentions(current[k], Strip(c))
    ensures var lo := Clamp(RulesIndex(current), |current|);
            ModifyLines(current, Changes({c}, [], {})) == current[..lo] + [DeclLine(Strip(c))] + current[lo..]
  {
    ModifyChainsOnly(current, c);
    ChainDeclSkipsPresent(current, c);
    InsertAt(current, RulesIndex(current), [DeclLine(Strip(c))]);
  }

  /** Removing a chain drops its declaration and keeps the lines that do not mention it. */
  lemma RemoveFreshDecl(front: seq<string>, back: seq<string>, c: string)
    requires Strip(c) != ""
    requires forall k :: 0 <= k < |front| ==> !Mentions(front[k], Strip(c))
    requires forall k :: 0 <= k < |back| ==> !Mentions(back[k], Strip(c))
    ensures RemoveMatching(front + [DeclLine(Strip(c))] + back, {c}) == front + back
  {
    DeclRemoved(c);
    KeepsUnmentioned(front, c);
    KeepsUnmentioned(back, c);
    Lists.FilterDropOne(front, DeclLine(Strip(c)), back, KeepFn({c}));
  }

  /** Removing a chain drops its own declaration. */
  lemma DeclRemoved(c: string)
    requires Strip(c) != ""
    ensures !KeepFn({c})(DeclLine(Strip(c)))
  {
    StrippedDeclMentions(c);
    assert Removed(DeclLine(Strip(c)), {c});
  }

  /** Removing a chain keeps every line that does not mention it. */
  lemma KeepsUnmentioned(xs: seq<string>, c: string)
    requires forall k :: 0 <= k < |xs| ==> !Mentions(xs[k], Strip(c))
    ensures forall k :: 0 <= k < |xs| ==> KeepFn({c})(xs[k])
  {
    forall k | 0 <= k < |xs| ensures KeepFn({c})(xs[k]) {
      assert !Removed(xs[k], {c});
    }
  }

  /** Removing a chain that was just declared, and mentioned nowhere else, restores the region. */
  lemma AddThenRemoveChain(current: seq<string>, c: string)
    requires Strip(c) != ""
    requires forall k :: 0 <= k < |current| ==> !Mentions(current[k], Strip(c))
    ensures ModifyLines(ModifyLines(current, Changes({c}, [], {})), Changes({}, [], {c})) == current
  {
    FreshChainAdded(current, c);
    RemoveFreshAt(current, Clamp(RulesIndex(current), |current|), c);
  }

  /** Removing a chain whose declaration sits at `lo`, and that no other line mentions,
      gives back the lines around it. */
  lemma RemoveFreshAt(current: seq<string>, lo: nat, c: string)
    requires lo <= |current| && Strip(c) != ""
    requires forall k :: 0 <= k < |current| ==> !Mentions(current[k], Strip(c))
    ensures ModifyLines(current[..lo] + [DeclLine(Strip(c))] + current[lo..], Changes({}, [], {c})) == current
  {
    ModifyRemoveOnly(current[..lo] + [DeclLine(Strip(c))] + current[lo..], c);
    DeclRemoved(c);
    KeepsUnmentioned(current, c);
    Lists.FilterDropAt(current, lo, DeclLine(Strip(c)), KeepFn({c}));
  }

  /** The removal request for a chain drops its declaration and keeps the lines that do not mention it. */
  lemma RemoveFreshChain(front: seq<string>, back: seq<string>, c: string)
    requires Strip(c) != ""
    requires forall k :: 0 <= k < |front| ==> !Mentions(front[k], Strip(c))
    requires forall k :: 0 <= k < |back| ==> !Mentions(back[k], Strip(c))
    ensures ModifyLines(front + [DeclLine(Strip(c))] + back, Changes({}, [], {c})) == front + back
  {
    ModifyRemoveOnly(front + [DeclLine(Strip(c))] + back, c);
    RemoveFreshDecl(front, back, c);
  }

  /** Removing only a chain is the removal pass alone. */
  lemma ModifyRemoveOnly(lines: seq<string>, c: string)
    ensures ModifyLines(lines, Changes({}, [], {c})) == RemoveMatching(lines, {c})
  {
  }

  lemma ChainDeclsStep(lines: seq<string>, ordered: seq<string>, i: nat)
    requires i < |ordered|
    ensures ChainDecls(lines, ordered[..i + 1]) == ChainDecls(lines, ordered[..i]) + ChainDecl(lines, ordered[i])
  {
    assert ordered[..i + 1][..i] == ordered[..i];
  }

  /** The first loop of `_modify_rules`: a declaration for each sorted chain no line mentions yet. */
  method DeclareChains(newFilter: seq<string>, sortedChains: seq<string>) returns (ourChains: seq<string>)
    ensures ourChains == ChainDecls(newFilter, sortedChains)
  {
    ourChains := [];
    var i := 0;
    while i < |sortedChains|
      invariant 0 <= i <= |sortedChains|
      invariant ourChains == ChainDecls(newFilter, sortedChains[..i])
    {
      ourChains := ourChains + ChainDecl(newFilter, sortedChains[i]);
      ChainDeclsStep(newFilter, sortedChains, i);
      i := i + 1;
    }
    assert sortedChains[..i] == sortedChains;
  }

  /** The second loop of `_modify_rules`: one line per rule, with zero counters unless already mentioned. */
  method WriteRules(newFilter: seq<string>, rules: seq<IptablesRule>) returns (ourRules: seq<string>)
    ensures ourRules == RuleLines(newFilter, rules)
  {
    ourRules := [];
    var i := 0;
    while i < |rules|
      invariant 0 <= i <= |rules|
      invariant ourRules == RuleLines(newFilter, rules[..i])
    {
      var ruleStr := Strip(rules[i].ToString());
      var dup := Lists.Filter(newFilter, MentionsFn(ruleStr));
      if dup == [] {
        ruleStr := "[0:0] " + ruleStr;
      }
      ourRules := ourRules + [ruleStr];
      assert rules[..i + 1][..i] == rules[..i];
      i := i + 1;
    }
    assert rules[..i] == rules;
  }

  /** The removal loop over the chains to remove, one comprehension per chain. */
  method RemoveEach(lines: seq<string>, patterns: set<string>) returns (newFilter: seq<string>)
    ensures newFilter == RemoveMatching(lines, patterns)
  {
    newFilter := lines;
    RemoveMatchingKeepsAll(lines, {});
    ghost var done: set<string> := {};
    var pending := patterns;
    while pending != {}
      invariant done + pending == patterns
      invariant newFilter == RemoveMatching(lines, done)
      decreases |pending|
    {
      var pattern :| pattern in pending;
      newFilter := RemoveMatching(newFilter, {pattern});
      RemoveMatchingCompose(lines, done, {pattern});
      Lists.MoveOne(done, pending, pattern);
      done := done + {pattern};
      pending := pending - {pattern};
    }
  }

  /** The removal loop over the rules to remove, in request order. */
  method RemoveInOrder(lines: seq<string>, patterns: seq<string>) returns (newFilter: seq<string>)
    ensures newFilter == RemoveMatching(lines, Lists.Elements(patterns))
  {
    newFilter := lines;
    RemoveMatchingKeepsAll(lines, {});
    var j := 0;
    while j < |patterns|
      invariant 0 <= j <= |patterns|
      invariant newFilter == RemoveMatching(lines, Lists.Elements(patterns[..j]))
    {
      newFilter := RemoveMatching(newFilter, {patterns[j]});
      RemoveMatchingCompose(lines, Lists.Elements(patterns[..j]), {patterns[j]});
      assert patterns[..j + 1][..j] == patterns[..j];
      j := j + 1;
    }
    assert patterns[..j] == patterns;
  }

  /** `_modify_rules`: declare the new chains, write the new rules, then run the removal passes. */
  method ModifyRules(currentLines: seq<string>, chains: set<string>, removeChains: set<string>,
                     rules: seq<IptablesRule>, removeRules: seq<string>) returns (newFilter: seq<string>)
    ensures newFilter == ModifyLines(currentLines, TableChanges(chains, removeChains, rules, removeRules))
  {
    newFilter := currentLines;
    var sortedChains := SortStrings(chains);
    if sortedChains != [] {
      var ourChains := DeclareChains(newFilter, sortedChains);
      var rulesIndex := FindRulesIndex(newFilter);
      newFilter := SliceAssign(newFilter, rulesIndex, rulesIndex, ourChains);
    }
    assert newFilter == AddChains(currentLines, chains) by {
      SortedSeqSpec(chains);
    }
    ghost var withChains := newFilter;
    if rules != [] {
      var ourRules := WriteRules(newFilter, rules);
      var rulesIndex := FindRulesIndex(newFilter);
      newFilter := SliceAssign(newFilter, rulesIndex, rulesIndex, ourRules);
    }
    ghost var withRules := newFilter;
    assert withRules == AddRules(withChains, rules);
    newFilter := RemoveEach(newFilter, removeChains);
    newFilter := RemoveInOrder(newFilter, removeRules);
    RemoveMatchingCompose(withRules, removeChains, Lists.Elements(removeRules));
  }

  // ---------------------------------------------------------------- iptables_apply

  /** The dump lines with the table's region replaced by `_modify_rules` of it. */
  ghost function ApplyLines(lines: seq<string>, tableName: string, changes: Changes): Result<seq<string>, IptablesError> {
    match FindTable(lines, tableName)
    case Failure(e) => Failure(e)
    case Success((start, end)) => Success(SliceAssign(lines, start, end, ModifyLines(Slice(lines, start, end), changes)))
  }

  /** `iptables_apply` on the save output: split into lines, reconcile, join for restore. */
  ghost function ApplyText(dump: string, tableName: string, changes: Changes): Result<string, IptablesError> {
    match ApplyLines(Split(dump, "\n"), tableName, changes)
    case Failure(e) => Failure(e)
    case Success(lines) => Success(Join(lines, "\n"))
  }

  /** Once the table's region is found, the restore input is the dump with that region reconciled. */
  lemma ApplyTextFound(dump: string, tableName: string, changes: Changes, start: int, end: int)
    requires FindTable(Split(dump, "\n"), tableName) == Success((start, end))
    ensures var lines := Split(dump, "\n");
            ApplyText(dump, tableName, changes) ==
            Success(Join(SliceAssign(lines, start, end, ModifyLines(Slice(lines, start, end), changes)), "\n"))
  {
  }

  /** A table without its COMMIT line fails the whole apply with that error. */
  lemma ApplyTextMissing(dump: string, tableName: string, changes: Changes)
    requires FindTable(Split(dump, "\n"), tableName).Failure?
    ensures ApplyText(dump, tableName, changes) == Failure(FindTable(Split(dump, "\n"), tableName).error)
  {
  }

  /** Only the table's region changes: every line before and after it is kept as it was. */
  lemma ApplyKeepsOtherTables(lines: seq<string>, tableName: string, changes: Changes)
    requires FindTable(lines, tableName).Success?
    ensures var (start, end) := FindTable(lines, tableName).value;
            var (lo, hi) := SpliceBounds(|lines|, start, end);
            var out := ApplyLines(lines, tableName, changes).value;
            |out| >= lo + (|lines| - hi) &&
            out[..lo] == lines[..lo] && out[|out| - (|lines| - hi)..] == lines[hi..]
  {
  }

  /** Applying with nothing to change hands iptables-restore exactly what iptables-save printed. */
  lemma ApplyNothing(dump: string, tableName: string)
    ensures ApplyText(dump, tableName, Changes({}, [], {})).Success? ==>
            ApplyText(dump, tableName, Changes({}, [], {})).value == dump
  {
    var lines := Split(dump, "\n");
    match FindTable(lines, tableName)
    case Failure(_) =>
    case Success((start, end)) =>
      ModifyNothing(Slice(lines, start, end));
      SliceAssignSame(lines, start, end);
      JoinSplit(dump, "\n");
  }

  /** The table whose `remove_rules` the obj path should use are ignored as written. */
  lemma ObjRemoveRulesIgnored()
    ensures var lines := ["[0:0] -A FORWARD -j DROP"];
            ModifyLines(lines, ObjChangesAsWritten({}, {}, [], ["-j DROP"])) == lines &&
            ModifyLines(lines, TableChanges({}, {}, [], ["-j DROP"])) == []
  {
    ObjAsWrittenKeeps();
    TableRemovesDrop();
  }

  /** As written, the obj path hands `_modify_rules` nothing to remove. */
  lemma ObjAsWrittenKeeps()
    ensures var lines := ["[0:0] -A FORWARD -j DROP"];
            ModifyLines(lines, ObjChangesAsWritten({}, {}, [], ["-j DROP"])) == lines
  {
    assert ObjChangesAsWritten({}, {}, [], ["-j DROP"]) == Changes({}, [], {});
    ModifyNothing(["[0:0] -A FORWARD -j DROP"]);
  }

  /** The dumped rule `-j DROP` matches the queued removal. */
  lemma DropMatches()
    ensures Removed("[0:0] -A FORWARD -j DROP", {"-j DROP"})
  {
    var line := "[0:0] -A FORWARD -j DROP";
    StripKeeps(line);
    StripKeeps("-j DROP");
    assert line == "[0:0] -A FORWARD " + "-j DROP" + "";
    ContainsMiddle("[0:0] -A FORWARD ", "-j DROP", "");
  }

  /** The table's own changes drop the rule queued for removal. */
  lemma TableRemovesDrop()
    ensures ModifyLines(["[0:0] -A FORWARD -j DROP"], TableChanges({}, {}, [], ["-j DROP"])) == []
  {
    var lines := ["[0:0] -A FORWARD -j DROP"];
    assert TableChanges({}, {}, [], ["-j DROP"]) == Changes({}, [], {"-j DROP"}) by {
      assert Lists.Elements(["-j DROP"]) == {"-j DROP"};
    }
    assert AddRules(AddChains(lines, {}), []) == lines;
    DropFiltered();
  }

  /** The filter of `_modify_rules` drops the matching rule line. */
  lemma DropFiltered()
    ensures RemoveMatching(["[0:0] -A FORWARD -j DROP"], {"-j DROP"}) == []
  {
    var lines := ["[0:0] -A FORWARD -j DROP"];
    DropMatches();
    assert !KeepFn({"-j DROP"})(lines[0]);
    assert lines[1..] == [];
  }

  // ---------------------------------------------------------------- wrapped targets

  /** `_wrap_target_chain`: a `$name` token becomes `<wrap name>-<name cut to the limit>`. */
  function WrapTargetChain(wrapName: string, s: string, wrapRule: bool): string {
    if StartsWith(s, "$") then wrapName + "-" + GetChainName(s[1..], wrapRule) else s
  }

  function WrapTokens(wrapName: string, tokens: seq<string>, wrapRule: bool): (r: seq<string>)
    ensures |r| == |tokens|
    ensures forall k :: 0 <= k < |tokens| ==> r[k] == WrapTargetChain(wrapName, tokens[k], wrapRule)
  {
    if tokens == [] then [] else [WrapTargetChain(wrapName, tokens[0], wrapRule)] + WrapTokens(wrapName, tokens[1..], wrapRule)
  }

  /** The rule text add_rule stores: every space-separated `$` token rewritten when there is a `$`. */
  function WrapRule(wrapName: string, rule: string, wrapRule: bool): string {
    if Contains(rule, "$") then Join(WrapTokens(wrapName, Split(rule, " "), wrapRule), " ") else rule
  }

  /** Only tokens that start with `$` are rewritten: a rule without one is stored as given. */
  lemma WrapRuleKeepsPlainRules(wrapName: string, rule: string, wrapRule: bool)
    requires forall k :: 0 <= k < |Split(rule, " ")| ==> !StartsWith(Split(rule, " ")[k], "$")
    ensures WrapRule(wrapName, rule, wrapRule) == rule
  {
    var tokens := Split(rule, " ");
    assert WrapTokens(wrapName, tokens, wrapRule) == tokens;
    JoinSplit(rule, " ");
  }

  // ---------------------------------------------------------------- the manager objects

  /** The two tables the manager keeps: `filter` and `nat`. */
  datatype TableName = Filter | Nat

  /** `'*%s' % table` looks for this name; `None` when no table is known. */
  function TableLabel(t: Option<TableName>): string {
    match t
    case None => "None"
    case Some(Filter) => "filter"
    case Some(Nat) => "nat"
  }

  /** `IptablesTable`: what has been asked of one table so far. */
  class IptablesTable {
    var chains: set<string>
    var removeChains: set<string>
    var rules: seq<IptablesRule>
    var removeRules: seq<string>

    constructor()
      ensures chains == {} && removeChains == {} && rules == [] && removeRules == []
    {
      chains := {};
      removeChains := {};
      rules := [];
      removeRules := [];
    }

    function PendingChanges(): Changes
      reads this
    {
      TableChanges(chains, removeChains, rules, removeRules)
    }
  }

  /**
    `IptablesManager`: one chain (or none) in one table (or none). When a table is
    given, `self.chains`, `self.rules` and the removal lists are those of that table.
   */
  class IptablesManager {
    const chainName: Option<string>
    const namespace: Option<string>
    const suffix: Option<string>
    const wrap: bool
    const table: Option<TableName>
    const wrapName: string
    const filter: IptablesTable
    const natTable: IptablesTable

    ghost predicate Valid() {
      filter != natTable && |wrapName| <= MaxWrapNameLen
    }

    /** `self.ipv4[table]` */
    function Ipv4(t: TableName): IptablesTable {
      if t == Filter then filter else natTable
    }

    constructor(chainName: Option<string>, table: Option<TableName>, namespace: Option<string>,
                suffix: Option<string>, wrap: bool, binaryName: string)
      ensures Valid()
      ensures this.chainName == chainName && this.table == table && this.namespace == namespace && this.wrap == wrap
      ensures this.suffix == if Truthy(suffix) then Some(Strip(suffix.value)) else suffix
      ensures wrapName == Take(binaryName, MaxWrapNameLen)
      ensures fresh(filter) && fresh(natTable)
      ensures filter.chains == {} && filter.removeChains == {} && filter.rules == [] && filter.removeRules == []
      ensures natTable.chains == {} && natTable.removeChains == {} && natTable.rules == [] && natTable.removeRules == []
    {
      this.chainName := chainName;
      this.namespace := namespace;
      this.suffix := if Truthy(suffix) then Some(Strip(suffix.value)) else suffix;
      this.wrap := wrap;
      this.table := table;
      this.wrapName := Take(binaryName, MaxWrapNameLen);
      filter := new IptablesTable();
      natTable := new IptablesTable();
    }

    /** `_get_chain_name`: `<wrap name>-<suffix>` or `<wrap name>-<chain name[:11]>`; None when not wrapping. */
    function ChainNameOf(): (r: Option<string>)
      requires chainName.Some?
      ensures r.Some? <==> wrap
      ensures r.Some? && !Truthy(suffix) ==>
                StartsWith(r.value, wrapName + "-") && |r.value| <= |wrapName| + 1 + MaxChainLenWrap
    {
      var name := GetChainName(chainName.value, true);
      if wrap && Truthy(suffix) then Some(wrapName + "-" + suffix.value)
      else if wrap then Some(wrapName + "-" + name)
      else None
    }

    /** Without a suffix, a wrapped chain name always fits iptables' 28 characters. */
    lemma WrappedNameFits()
      requires Valid() && chainName.Some? && wrap && !Truthy(suffix)
      ensures |Strip(ChainNameOf().value)| <= MaxChainLenNoWrap
    {
    }

    /** The lists `_modify_rules` reads: the manager's table's, or `obj`'s when it has no table. */
    function Source(obj: IptablesTable?): IptablesTable
      requires table.Some? || obj != null
    {
      if table.Some? then Ipv4(table.value) else obj
    }

    /**
      What `_modify_rules` is asked to do: the manager's table's pending lists, or, with
      no table, `obj`'s as line 205 reads them, so `obj.remove_rules` is never consulted.
     */
    function ApplyChanges(obj: IptablesTable?): Changes
      requires table.Some? || obj != null
      reads this, obj, filter, natTable
    {
      if table.Some? then Ipv4(table.value).PendingChanges()
      else ObjChangesAsWritten(obj.chains, obj.removeChains, obj.rules, obj.removeRules)
    }

    /**
      `iptables_apply`: reconciles the region of `table` (or of the manager's own
      table) in the save output and returns the restore input.
     */
    method Apply(dump: string, tableArg: Option<TableName>, obj: IptablesTable?) returns (r: Result<string, IptablesError>)
      requires table.Some? || obj != null
      ensures r == ApplyText(dump, TableLabel(if tableArg.Some? then tableArg else table), ApplyChanges(obj))
    {
      var tableName := if tableArg.Some? then tableArg else table;
      var allLines := Split(dump, "\n");
      var region := FindTable(allLines, TableLabel(tableName));
      if region.Failure? {
        ApplyTextMissing(dump, TableLabel(tableName), ApplyChanges(obj));
        return Failure(region.error);
      }
      var (start, end) := region.value;
      var source := Source(obj);
      var removeRules := source.removeRules;
      if table.None? {
        // as written: `remove_rules = obj.remove_chains`
        removeRules := SortStrings(obj.removeChains);
        SortedSeqSpec(obj.removeChains);
      }
      assert TableChanges(source.chains, source.removeChains, source.rules, removeRules) == ApplyChanges(obj);
      r := ApplyFound(dump, TableLabel(tableName), start, end, source.chains, source.removeChains, source.rules, removeRules);
    }

    /** The rest of `iptables_apply` once the table's region is known. */
    method ApplyFound(dump: string, tableName: string, start: int, end: int, chains: set<string>,
                      removeChains: set<string>, rules: seq<IptablesRule>, removeRules: seq<string>)
      returns (r: Result<string, IptablesError>)
      requires FindTable(Split(dump, "\n"), tableName) == Success((start, end))
      ensures r == ApplyText(dump, tableName, TableChanges(chains, removeChains, rules, removeRules))
    {
      var allLines := Split(dump, "\n");
      var modified := ModifyRules(Slice(allLines, start, end), chains, removeChains, rules, removeRules);
      ApplyTextFound(dump, tableName, TableChanges(chains, removeChains, rules, removeRules), start, end);
      allLines := SliceAssign(allLines, start, end, modified);
      r := Success(Join(allLines, "\n"));
    }

    /** `add_chain`: refuses a missing or over-long name before touching anything, else records it and applies. */
    method AddChain(dump: string) returns (r: Result<string, IptablesError>)
      requires Valid() && chainName.Some? && table.Some?
      modifies Ipv4(table.value)
      ensures var t := Ipv4(table.value);
              var name := ChainNameOf();
              if name.None? then r == Failure(ChainNameMissing) && unchanged(t)
              else if |Strip(name.value)| > MaxChainLenNoWrap then r == Failure(ChainNameTooLong) && unchanged(t)
              else
                t.chains == old(t.chains) + {name.value} && t.removeChains == old(t.removeChains) &&
                t.rules == old(t.rules) && t.removeRules == old(t.removeRules) &&
                r == ApplyText(dump, TableLabel(table), t.PendingChanges())
    {
      var name := ChainNameOf();
      if name.None? {
        return Failure(ChainNameMissing);
      }
      if |Strip(name.value)| > MaxChainLenNoWrap {
        return Failure(ChainNameTooLong);
      }
      var t := Ipv4(table.value);
      t.chains := t.chains + {name.value};
      r := Apply(dump, table, null);
    }

    /** `remove_chain`: records the chain's name (`None` when not wrapping) for removal and applies. */
    method RemoveChain(dump: string) returns (r: Result<string, IptablesError>)
      requires Valid() && chainName.Some? && table.Some?
      modifies Ipv4(table.value)
      ensures var t := Ipv4(table.value);
              t.removeChains == old(t.removeChains) + {Render(ChainNameOf())} &&
              t.chains == old(t.chains) && t.rules == old(t.rules) && t.removeRules == old(t.removeRules) &&
              r == ApplyText(dump, TableLabel(table), t.PendingChanges())
    {
      var t := Ipv4(table.value);
      t.removeChains := t.removeChains + {Render(ChainNameOf())};
      r := Apply(dump, table, null);
    }

    /** The list a new rule goes to: the manager's table's, or the caller's `rule_list` without a table. */
    function RuleTarget(ruleList: IptablesTable?): IptablesTable
      requires table.Some? || ruleList != null
    {
      if table.Some? then Ipv4(table.value) else ruleList
    }

    /** The chain a new rule goes on: the manager's chain when it has one, else `chain_str`. */
    function RuleChain(chainStr: Option<string>): string {
      if Truthy(chainName) then Render(ChainNameOf()) else Render(chainStr)
    }

    /**
      `add_rule`: stores the rule, with `$` targets wrapped, and applies unless deferred
      (Success(None) stands for "not applied yet").
     */
    method AddRule(dump: string, rule: string, tableArg: Option<TableName>, chainStr: Option<string>,
                   ruleList: IptablesTable?, wrapRule: bool, deferApply: bool)
      returns (r: Result<Option<string>, IptablesError>)
      requires Valid()
      requires table.Some? || ruleList != null
      requires !deferApply ==> table.Some?
      modifies RuleTarget(ruleList)
      ensures var t := RuleTarget(ruleList);
              t.rules == old(t.rules) + [IptablesRule(RuleChain(chainStr), WrapRule(wrapName, rule, wrapRule), wrapRule)] &&
              t.chains == old(t.chains) && t.removeChains == old(t.removeChains) && t.removeRules == old(t.removeRules)
      ensures deferApply ==> r == Success(None)
      ensures !deferApply ==>
                var applied := ApplyText(dump, TableLabel(if tableArg.Some? then tableArg else table),
                                         Ipv4(table.value).PendingChanges());
                r == if applied.Success? then Success(Some(applied.value)) else Failure(applied.error)
    {
      var chain := RuleChain(chainStr);
      var text := WrapRule(wrapName, rule, wrapRule);
      var t := RuleTarget(ruleList);
      t.rules := t.rules + [IptablesRule(chain, text, wrapRule)];
      if deferApply {
        return Success(None);
      }
      var applied := Apply(dump, tableArg, null);
      r := if applied.Success? then Success(Some(applied.value)) else Failure(applied.error);
    }

    /** `remove_rule`: records the rule text for removal and applies. */
    method RemoveRule(dump: string, rule: string) returns (r: Result<string, IptablesError>)
      requires Valid() && table.Some?
      modifies Ipv4(table.value)
      ensures var t := Ipv4(table.value);
              t.removeRules == old(t.removeRules) + [rule] &&
              t.chains == old(t.chains) && t.removeChains == old(t.removeChains) && t.rules == old(t.rules) &&
              r == ApplyText(dump, TableLabel(table), t.PendingChanges())
    {
      var t := Ipv4(table.value);
      t.removeRules := t.removeRules + [rule];
      r := Apply(dump, table, null);
    }
  }
}
