/** The `policy-rules` command of rbac-tool: given the permissions each
    subject (user, group or service account) holds in a cluster, keep the
    subjects whose name matches a pattern (or, inverted, does not), flatten
    every (subject, namespace, rule) into one eight-column table row, and
    emit either the rows sorted by (kind, name) or the kept subjects as a
    YAML or JSON document.

    Foreign collaborators are parameters: the regular-expression compiler
    (`compile`), the cluster client and permission fetch (`Cluster`), and
    the rule normalizers `rbac.ReplaceToCore` and `rbac.ReplaceToWildCard`
    (`Normalizers`), which rewrite a slice element by element. */
module PolicyRules {
  import opened Sorting
  import opened Text
  import opened Seqs

  // ---------------------------------------------------------------- data

  /** The principal a set of rules belongs to (`rbacv1.Subject`). */
  datatype Subject = Subject(kind: string, name: string)

  /** One access grant (`rbacv1.PolicyRule`). */
  datatype PolicyRule = PolicyRule(
    verbs: seq<string>,
    apiGroups: seq<string>,
    resources: seq<string>,
    resourceNames: seq<string>,
    nonResourceURLs: seq<string>)

  /** One entry of a subject's namespace-to-rules map; the namespace `""`
      stands for cluster scope. */
  datatype ScopedRules = ScopedRules(namespace: string, rules: seq<PolicyRule>)

  /** `rbac.SubjectPermissions`: a subject and its rules per namespace, in
      the order in which Go happens to iterate the map (which it does not
      specify, so nothing below depends on it). */
  datatype SubjectPermissions = SubjectPermissions(subject: Subject, rules: seq<ScopedRules>)

  /** `rbac.ReplaceToCore` (applied to API groups) and
      `rbac.ReplaceToWildCard` (applied to the other fields): each rewrites a
      slice in place, element by element, without changing its length. */
  datatype Normalizers = Normalizers(toCore: string -> string, toWildCard: string -> string)

  /** `regexp.Compile`: a matcher over names, or the compiler's error. */
  datatype Regexp = Compiled(matches: string -> bool) | CompileError(message: string)

  /** What creating the client and fetching the permissions produced. */
  datatype Cluster =
    | ClientFailure(reason: string)
    | FetchFailure(reason: string)
    | Snapshot(policies: seq<SubjectPermissions>)

  datatype Format = Yaml | Json

  /** What the command writes out: the table, or the text that
      `yaml.Marshal` / `json.Marshal` made of the kept subjects. */
  datatype Output =
    | Table(header: Row, rows: seq<Row>)
    | Document(format: Format, text: string)

  /** A Go `error` return: the value, or the error's message. */
  datatype Result<T> = Success(value: T) | Failure(error: string)

  const ColumnCount := 8

  /** A table row: kind, name, verbs, namespace, API groups, resources,
      resource names, non-resource URLs. */
  type Row = r: seq<string> | |r| == ColumnCount witness ["", "", "", "", "", "", "", ""]

  const Header: Row := ["TYPE", "SUBJECT", "VERBS", "NAMESPACE", "API GROUP", "KIND", "NAMES", "NonResourceURI"]

  const ClientErrorPrefix := "Failed to create kubernetes client - "
  const UnsupportedFormat := "Unsupported output format"
  const ProcessingErrorPrefix := "Processing error - "

  // ------------------------------------------------------ pattern choice

  /** The pattern handed to the compiler: the `--regex` flag verbatim when
      set; otherwise a single positional argument, made case-insensitive and
      multi-line; otherwise match-all. */
  function ChoosePattern(regex: string, args: seq<string>): (pattern: string)
    ensures regex != "" ==> pattern == regex
    ensures regex == "" && |args| == 1 ==> pattern == "(?mi)" + args[0]
    ensures regex == "" && |args| != 1 ==> pattern == ".*"
    ensures pattern != ""
  {
    if regex != "" then regex
    else if |args| != 1 then ".*"
    else "(?mi)" + args[0]
  }

  // ------------------------------------------------------ subject filter

  /** Whether a subject survives the filter, from whether its name matched
      and whether the match is inverted. */
  function Keep(matched: bool, inverse: bool): (keep: bool)
    ensures keep == (matched != inverse)
  {
    if matched then !inverse else inverse
  }

  /** The subjects the filter keeps, in input order. */
  function Filtered(policies: seq<SubjectPermissions>, matches: string -> bool, inverse: bool): seq<SubjectPermissions>
  {
    if policies == [] then []
    else
      var last := policies[|policies| - 1];
      Filtered(policies[..|policies| - 1], matches, inverse)
        + (if Keep(matches(last.subject.name), inverse) then [last] else [])
  }

  /** The filter loop: appends each subject that is not skipped. */
  method FilterSubjects(policies: seq<SubjectPermissions>, matches: string -> bool, inverse: bool)
    returns (filtered: seq<SubjectPermissions>)
    ensures filtered == Filtered(policies, matches, inverse)
  {
    filtered := [];
    for i := 0 to |policies|
      invariant filtered == Filtered(policies[..i], matches, inverse)
    {
      var policy := policies[i];
      assert policies[..i + 1][..i] == policies[..i];
      var matched := matches(policy.subject.name);
      if matched {
        if inverse {
          continue;
        }
      } else {
        if !inverse {
          continue;
        }
      }
      filtered := filtered + [policy];
    }
    assert policies[..|policies|] == policies;
  }

  /** `t` is `s` with some elements left out and the rest in their order. */
  ghost predicate IsSubsequence<T>(t: seq<T>, s: seq<T>)
    decreases |s|
  {
    if t == [] then true
    else if s == [] then false
    else
      || (t[|t| - 1] == s[|s| - 1] && IsSubsequence(t[..|t| - 1], s[..|s| - 1]))
      || IsSubsequence(t, s[..|s| - 1])
  }

  /** The kept subjects are an order-preserving subsequence of the input. */
  lemma {:induction false} FilteredIsSubsequence(policies: seq<SubjectPermissions>, matches: string -> bool, inverse: bool)
    ensures IsSubsequence(Filtered(policies, matches, inverse), policies)
    decreases |policies|
  {
    if policies != [] {
      var init := policies[..|policies| - 1];
      var last := policies[|policies| - 1];
      var kept := Filtered(policies, matches, inverse);
      FilteredIsSubsequence(init, matches, inverse);
      if Keep(matches(last.subject.name), inverse) {
        assert kept[..|kept| - 1] == Filtered(init, matches, inverse);
      } else {
        assert kept == Filtered(init, matches, inverse);
      }
    }
  }

  /** A subject is kept exactly when it is one of the input's and
      `matches(name) != inverse`: both halves of the truth table. */
  lemma {:induction false} FilteredMembers(policies: seq<SubjectPermissions>, matches: string -> bool, inverse: bool, p: SubjectPermissions)
    ensures p in Filtered(policies, matches, inverse)
        <==> p in policies && matches(p.subject.name) != inverse
    decreases |policies|
  {
    if policies != [] {
      var init := policies[..|policies| - 1];
      FilteredMembers(init, matches, inverse, p);
      assert policies == init + [policies[|policies| - 1]];
    }
  }

  /** Inverting the match keeps exactly the subjects the plain match drops:
      between them the two filters keep every subject once. */
  lemma {:induction false} InverseKeepsComplement(policies: seq<SubjectPermissions>, matches: string -> bool)
    ensures multiset(Filtered(policies, matches, false)) + multiset(Filtered(policies, matches, true))
         == multiset(policies)
    decreases |policies|
  {
    if policies != [] {
      var init := policies[..|policies| - 1];
      InverseKeepsComplement(init, matches);
      assert policies == init + [policies[|policies| - 1]];
    }
  }

  // --------------------------------------------------------- row builder

  /** The namespace column: cluster scope (`""`) shows as `*`. */
  function NamespaceColumn(namespace: string): string
  {
    if namespace == "" then "*" else namespace
  }

  /** The API-groups, resources and non-resource-URLs columns: the
      elements joined by commas, or `-` when there are none. */
  function FieldColumn(values: seq<string>): string
  {
    if |values| == 0 then "-" else Join(values, ',')
  }

  /** The resource-names column: like `FieldColumn`, except that no names
      under some API group shows as `*`. */
  function ResourceNamesColumn(names: seq<string>, apiGroups: seq<string>): string
  {
    if |names| == 0 then (if |apiGroups| == 0 then "-" else "*")
    else Join(names, ',')
  }

  /** A rule field after its normalizer and `sort.Strings`. */
  function Normalized(values: seq<string>, replace: string -> string): seq<string>
  {
    Sort(Map(replace, values))
  }

  /** The rule as the row builder leaves it: API groups through
      `ReplaceToCore`, every other field through `ReplaceToWildCard`, and
      each field sorted. */
  function NormalizedRule(rule: PolicyRule, nz: Normalizers): PolicyRule
  {
    PolicyRule(
      Normalized(rule.verbs, nz.toWildCard),
      Normalized(rule.apiGroups, nz.toCore),
      Normalized(rule.resources, nz.toWildCard),
      Normalized(rule.resourceNames, nz.toWildCard),
      Normalized(rule.nonResourceURLs, nz.toWildCard))
  }

  /** The columns of an already normalized rule, under an already rendered
      namespace column. Verbs have no placeholder. */
  function Columns(subject: Subject, namespace: string, rule: PolicyRule): Row
  {
    [ subject.kind,
      subject.name,
      Join(rule.verbs, ','),
      namespace,
      FieldColumn(rule.apiGroups),
      FieldColumn(rule.resources),
      ResourceNamesColumn(rule.resourceNames, rule.apiGroups),
      FieldColumn(rule.nonResourceURLs) ]
  }

  /** The row for one rule of `subject`. */
  function RuleRow(subject: Subject, namespace: string, rule: PolicyRule, nz: Normalizers): Row
  {
    Columns(subject, namespace, NormalizedRule(rule, nz))
  }

  /** One (subject, namespace, rule) triple of the input. */
  datatype Entry = Entry(subject: Subject, namespace: string, rule: PolicyRule)

  /** The triples of one namespace's rules, in rule order. */
  function ScopeEntries(subject: Subject, namespace: string, rules: seq<PolicyRule>): seq<Entry>
  {
    if rules == [] then []
    else
      ScopeEntries(subject, namespace, rules[..|rules| - 1])
        + [Entry(subject, namespace, rules[|rules| - 1])]
  }

  /** The triples of one subject, namespace after namespace. */
  function SubjectEntries(subject: Subject, scopes: seq<ScopedRules>): seq<Entry>
  {
    if scopes == [] then []
    else
      var last := scopes[|scopes| - 1];
      SubjectEntries(subject, scopes[..|scopes| - 1]) + ScopeEntries(subject, last.namespace, last.rules)
  }

  /** The triples of all subjects, in the order the row builder visits them. */
  function Entries(policies: seq<SubjectPermissions>): seq<Entry>
  {
    if policies == [] then []
    else
      var last := policies[|policies| - 1];
      Entries(policies[..|policies| - 1]) + SubjectEntries(last.subject, last.rules)
  }

  /** The row of one triple: the namespace column shows cluster scope as `*`. */
  function EntryRow(e: Entry, nz: Normalizers): Row
  {
    RuleRow(e.subject, NamespaceColumn(e.namespace), e.rule, nz)
  }

  /** The renderer of the row builder, for one choice of normalizers. */
  function Renderer(nz: Normalizers): Entry -> Row
  {
    e => EntryRow(e, nz)
  }

  /** The rows of a list of triples, one per triple, in the same order. */
  function RowsOf(entries: seq<Entry>, nz: Normalizers): (rows: seq<Row>)
    ensures |rows| == |entries|
  {
    Map(Renderer(nz), entries)
  }

  /** The rows before the table sort: one per triple, in visiting order. */
  function AllRows(policies: seq<SubjectPermissions>, nz: Normalizers): seq<Row>
  {
    RowsOf(Entries(policies), nz)
  }

  lemma RowsOfSingle(e: Entry, nz: Normalizers)
    ensures RowsOf([e], nz) == [EntryRow(e, nz)]
  {
    MapSingle(Renderer(nz), e);
  }

  lemma RowsOfIndex(entries: seq<Entry>, nz: Normalizers, m: nat)
    requires m < |entries|
    ensures RowsOf(entries, nz)[m] == EntryRow(entries[m], nz)
  {
    MapIndex(Renderer(nz), entries, m);
  }

  lemma RowsOfAppend(left: seq<Entry>, right: seq<Entry>, nz: Normalizers)
    ensures RowsOf(left + right, nz) == RowsOf(left, nz) + RowsOf(right, nz)
  {
    MapAppend(Renderer(nz), left, right);
  }

  /** A normalizer call on a rule's slice: rewrites every element in place. */
  method Replace(a: array<string>, replace: string -> string)
    modifies a
    ensures a[..] == Map(replace, old(a[..]))
  {
    for i := 0 to a.Length
      invariant forall k :: 0 <= k < i ==> a[k] == replace(old(a[k]))
      invariant forall k :: i <= k < a.Length ==> a[k] == old(a[k])
    {
      a[i] := replace(a[i]);
    }
    forall k | 0 <= k < a.Length
      ensures a[k] == Map(replace, old(a[..]))[k]
    {
      MapIndex(replace, old(a[..]), k);
    }
  }

  /** Normalizes one rule field and sorts it in place with `sort.Strings`;
      returns what the slice then holds. */
  method NormalizeField(values: seq<string>, replace: string -> string) returns (sorted: seq<string>)
    ensures sorted == Normalized(values, replace)
  {
    var a := new string[|values|](i requires 0 <= i < |values| => values[i]);
    assert a[..] == values;
    Replace(a, replace);
    StrLessIsAsymmetric();
    SortSlice(a, StrLess);
    SortedUnique(a[..], Sort(Map(replace, values)));
    sorted := a[..];
  }

  /** The in-place normalization of one rule: each field through its
      normalizer, then `sort.Strings`. */
  method NormalizeRule(rule: PolicyRule, nz: Normalizers) returns (normalized: PolicyRule)
    ensures normalized == NormalizedRule(rule, nz)
  {
    var apiGroups := NormalizeField(rule.apiGroups, nz.toCore);
    var resources := NormalizeField(rule.resources, nz.toWildCard);
    var resourceNames := NormalizeField(rule.resourceNames, nz.toWildCard);
    var verbs := NormalizeField(rule.verbs, nz.toWildCard);
    var nonResourceURLs := NormalizeField(rule.nonResourceURLs, nz.toWildCard);
    normalized := PolicyRule(verbs, apiGroups, resources, resourceNames, nonResourceURLs);
  }

  /** Builds the row for one rule: normalizes and sorts its fields, then
      joins them, with their placeholders. */
  method RenderRule(subject: Subject, namespace: string, rule: PolicyRule, nz: Normalizers)
    returns (row: Row)
    ensures row == RuleRow(subject, namespace, rule, nz)
  {
    var normalized := NormalizeRule(rule, nz);
    row := Columns(subject, namespace, normalized);
  }

  /** The loop over the subjects that appends one row per rule. The two
      loops nested inside it are `AppendSubjectRows` and `AppendScopeRows`. */
  method BuildRows(policies: seq<SubjectPermissions>, nz: Normalizers) returns (rows: seq<Row>)
    ensures rows == AllRows(policies, nz)
  {
    rows := [];
    for i := 0 to |policies|
      invariant rows == RowsOf(Entries(policies[..i]), nz)
    {
      var p := policies[i];
      EntriesStep(policies, i);
      RowsOfAppend(Entries(policies[..i]), SubjectEntries(p.subject, p.rules), nz);
      ConcatAssociative([], RowsOf(Entries(policies[..i]), nz), RowsOf(SubjectEntries(p.subject, p.rules), nz));
      rows := AppendSubjectRows(rows, p, nz);
    }
    assert policies[..|policies|] == policies;
  }

  lemma EntriesStep(policies: seq<SubjectPermissions>, i: nat)
    requires i < |policies|
    ensures Entries(policies[..i + 1])
         == Entries(policies[..i]) + SubjectEntries(policies[i].subject, policies[i].rules)
  {
    assert policies[..i + 1][..i] == policies[..i];
  }

  lemma SubjectEntriesStep(subject: Subject, scopes: seq<ScopedRules>, j: nat)
    requires j < |scopes|
    ensures SubjectEntries(subject, scopes[..j + 1])
         == SubjectEntries(subject, scopes[..j]) + ScopeEntries(subject, scopes[j].namespace, scopes[j].rules)
  {
    assert scopes[..j + 1][..j] == scopes[..j];
  }

  /** The loop over one subject's namespaces. */
  method AppendSubjectRows(rows: seq<Row>, p: SubjectPermissions, nz: Normalizers) returns (out: seq<Row>)
    ensures out == rows + RowsOf(SubjectEntries(p.subject, p.rules), nz)
  {
    out := rows;
    for j := 0 to |p.rules|
      invariant out == rows + RowsOf(SubjectEntries(p.subject, p.rules[..j]), nz)
    {
      var scope := p.rules[j];
      ghost var done := SubjectEntries(p.subject, p.rules[..j]);
      ghost var added := ScopeEntries(p.subject, scope.namespace, scope.rules);
      SubjectEntriesStep(p.subject, p.rules, j);
      RowsOfAppend(done, added, nz);
      ConcatAssociative(rows, RowsOf(done, nz), RowsOf(added, nz));
      out := AppendScopeRows(out, p.subject, scope, nz);
    }
    assert p.rules[..|p.rules|] == p.rules;
  }

  lemma ScopeEntriesStep(subject: Subject, namespace: string, rules: seq<PolicyRule>, k: nat)
    requires k < |rules|
    ensures ScopeEntries(subject, namespace, rules[..k + 1])
         == ScopeEntries(subject, namespace, rules[..k]) + [Entry(subject, namespace, rules[k])]
  {
    assert rules[..k + 1][..k] == rules[..k];
  }

  /** The loop over the rules of one namespace; cluster scope is shown as `*`. */
  method AppendScopeRows(rows: seq<Row>, subject: Subject, scope: ScopedRules, nz: Normalizers)
    returns (out: seq<Row>)
    ensures out == rows + RowsOf(ScopeEntries(subject, scope.namespace, scope.rules), nz)
  {
    out := rows;
    var namespace := scope.namespace;
    if namespace == "" {
      namespace := "*";
    }
    assert namespace == NamespaceColumn(scope.namespace);
    for k := 0 to |scope.rules|
      invariant out == rows + RowsOf(ScopeEntries(subject, scope.namespace, scope.rules[..k]), nz)
    {
      var rule := scope.rules[k];
      ScopeEntriesStep(subject, scope.namespace, scope.rules, k);
      var row := RenderRule(subject, namespace, rule, nz);
      ghost var entry := Entry(subject, scope.namespace, rule);
      assert row == EntryRow(entry, nz);
      ghost var done := ScopeEntries(subject, scope.namespace, scope.rules[..k]);
      RowsOfAppend(done, [entry], nz);
      RowsOfSingle(entry, nz);
      ConcatAssociative(rows, RowsOf(done, nz), [row]);
      out := out + [row];
    }
    assert scope.rules[..|scope.rules|] == scope.rules;
  }

  // ------------------------------------------------- properties of rows

  /** Number of rules over all namespaces of all subjects. */
  function RuleCount(policies: seq<SubjectPermissions>): nat
  {
    if policies == [] then 0 else ScopedRuleCount(policies[0].rules) + RuleCount(policies[1..])
  }

  function ScopedRuleCount(scopes: seq<ScopedRules>): nat
  {
    if scopes == [] then 0 else |scopes[0].rules| + ScopedRuleCount(scopes[1..])
  }

  lemma {:induction false} RuleCountAppend(a: seq<SubjectPermissions>, b: seq<SubjectPermissions>)
    ensures RuleCount(a + b) == RuleCount(a) + RuleCount(b)
  {
    if a == [] {
      assert a + b == b;
    } else {
      assert (a + b)[0] == a[0] && (a + b)[1..] == a[1..] + b;
      RuleCountAppend(a[1..], b);
    }
  }

  lemma {:induction false} ScopedRuleCountAppend(a: seq<ScopedRules>, b: seq<ScopedRules>)
    ensures ScopedRuleCount(a + b) == ScopedRuleCount(a) + ScopedRuleCount(b)
  {
    if a == [] {
      assert a + b == b;
    } else {
      assert (a + b)[0] == a[0] && (a + b)[1..] == a[1..] + b;
      ScopedRuleCountAppend(a[1..], b);
    }
  }

  lemma {:induction false} ScopeEntryCount(subject: Subject, namespace: string, rules: seq<PolicyRule>)
    ensures |ScopeEntries(subject, namespace, rules)| == |rules|
  {
    if rules != [] {
      ScopeEntryCount(subject, namespace, rules[..|rules| - 1]);
    }
  }

  lemma {:induction false} SubjectEntryCount(subject: Subject, scopes: seq<ScopedRules>)
    ensures |SubjectEntries(subject, scopes)| == ScopedRuleCount(scopes)
  {
    if scopes != [] {
      var init := scopes[..|scopes| - 1];
      var last := scopes[|scopes| - 1];
      SubjectEntryCount(subject, init);
      ScopeEntryCount(subject, last.namespace, last.rules);
      assert scopes == init + [last];
      ScopedRuleCountAppend(init, [last]);
    }
  }

  /** One row per rule: there are as many rows as the subjects have rules,
      over all their namespaces. */
  lemma {:induction false} EntryCount(policies: seq<SubjectPermissions>)
    ensures |Entries(policies)| == RuleCount(policies)
  {
    if policies != [] {
      var init := policies[..|policies| - 1];
      var last := policies[|policies| - 1];
      EntryCount(init);
      SubjectEntryCount(last.subject, last.rules);
      assert policies == init + [last];
      RuleCountAppend(init, [last]);
    }
  }

  /** One row per rule: the row count is the number of rules over all
      namespaces of all subjects. */
  lemma RowCount(policies: seq<SubjectPermissions>, nz: Normalizers)
    ensures |AllRows(policies, nz)| == RuleCount(policies)
  {
    EntryCount(policies);
  }

  lemma {:induction false} ScopeEntriesHaveRule(subject: Subject, namespace: string, rules: seq<PolicyRule>, k: nat)
    requires k < |rules|
    ensures Entry(subject, namespace, rules[k]) in ScopeEntries(subject, namespace, rules)
  {
    if k < |rules| - 1 {
      ScopeEntriesHaveRule(subject, namespace, rules[..|rules| - 1], k);
    }
  }

  lemma {:induction false} SubjectEntriesHaveRule(subject: Subject, scopes: seq<ScopedRules>, j: nat, k: nat)
    requires j < |scopes| && k < |scopes[j].rules|
    ensures Entry(subject, scopes[j].namespace, scopes[j].rules[k]) in SubjectEntries(subject, scopes)
  {
    if j < |scopes| - 1 {
      SubjectEntriesHaveRule(subject, scopes[..|scopes| - 1], j, k);
    } else {
      ScopeEntriesHaveRule(subject, scopes[j].namespace, scopes[j].rules, k);
    }
  }

  lemma {:induction false} EntriesHaveRule(policies: seq<SubjectPermissions>, i: nat, j: nat, k: nat)
    requires i < |policies| && j < |policies[i].rules| && k < |policies[i].rules[j].rules|
    ensures Entry(policies[i].subject, policies[i].rules[j].namespace, policies[i].rules[j].rules[k])
         in Entries(policies)
  {
    if i < |policies| - 1 {
      EntriesHaveRule(policies[..|policies| - 1], i, j, k);
    } else {
      SubjectEntriesHaveRule(policies[i].subject, policies[i].rules, j, k);
    }
  }

  /** No rule is lost: every rule of every subject has its row. */
  lemma EveryRuleHasRow(policies: seq<SubjectPermissions>, nz: Normalizers, i: nat, j: nat, k: nat)
    requires i < |policies| && j < |policies[i].rules| && k < |policies[i].rules[j].rules|
    ensures RuleRow(policies[i].subject, NamespaceColumn(policies[i].rules[j].namespace),
                    policies[i].rules[j].rules[k], nz)
         in AllRows(policies, nz)
  {
    var e := Entry(policies[i].subject, policies[i].rules[j].namespace, policies[i].rules[j].rules[k]);
    EntriesHaveRule(policies, i, j, k);
    var m :| 0 <= m < |Entries(policies)| && Entries(policies)[m] == e;
    RowsOfIndex(Entries(policies), nz, m);
  }

  lemma {:induction false} ScopeEntryProvenance(subject: Subject, namespace: string, rules: seq<PolicyRule>, e: Entry)
    requires e in ScopeEntries(subject, namespace, rules)
    ensures e.subject == subject && e.namespace == namespace
    ensures exists k :: 0 <= k < |rules| && e.rule == rules[k]
  {
    var init := rules[..|rules| - 1];
    if e in ScopeEntries(subject, namespace, init) {
      ScopeEntryProvenance(subject, namespace, init, e);
      var k :| 0 <= k < |init| && e.rule == init[k];
      assert rules[k] == init[k];
    } else {
      assert e.rule == rules[|rules| - 1];
    }
  }

  lemma {:induction false} SubjectEntryProvenance(subject: Subject, scopes: seq<ScopedRules>, e: Entry)
    requires e in SubjectEntries(subject, scopes)
    ensures exists j, k :: 0 <= j < |scopes| && 0 <= k < |scopes[j].rules|
                        && e == Entry(subject, scopes[j].namespace, scopes[j].rules[k])
  {
    var init := scopes[..|scopes| - 1];
    var last := scopes[|scopes| - 1];
    if e in SubjectEntries(subject, init) {
      SubjectEntryProvenance(subject, init, e);
      var j, k :| 0 <= j < |init| && 0 <= k < |init[j].rules|
               && e == Entry(subject, init[j].namespace, init[j].rules[k]);
      assert scopes[j] == init[j];
    } else {
      ScopeEntryProvenance(subject, last.namespace, last.rules, e);
      var k :| 0 <= k < |last.rules| && e.rule == last.rules[k];
      assert e == Entry(subject, scopes[|scopes| - 1].namespace, scopes[|scopes| - 1].rules[k]);
    }
  }

  lemma {:induction false} EntryProvenance(policies: seq<SubjectPermissions>, e: Entry)
    requires e in Entries(policies)
    ensures exists i, j, k :: 0 <= i < |policies| && 0 <= j < |policies[i].rules|
                           && 0 <= k < |policies[i].rules[j].rules|
                           && e == Entry(policies[i].subject, policies[i].rules[j].namespace,
                                         policies[i].rules[j].rules[k])
  {
    var init := policies[..|policies| - 1];
    var last := policies[|policies| - 1];
    if e in Entries(init) {
      EntryProvenance(init, e);
      var i, j, k :| 0 <= i < |init| && 0 <= j < |init[i].rules| && 0 <= k < |init[i].rules[j].rules|
                  && e == Entry(init[i].subject, init[i].rules[j].namespace, init[i].rules[j].rules[k]);
      assert policies[i] == init[i];
    } else {
      SubjectEntryProvenance(last.subject, last.rules, e);
      var j, k :| 0 <= j < |last.rules| && 0 <= k < |last.rules[j].rules|
               && e == Entry(last.subject, last.rules[j].namespace, last.rules[j].rules[k]);
      assert policies[|policies| - 1] == last;
    }
  }

  /** No row is fabricated: every row is the row of one rule of one subject,
      under one of that subject's namespaces. */
  lemma RowProvenance(policies: seq<SubjectPermissions>, nz: Normalizers, row: Row)
    requires row in AllRows(policies, nz)
    ensures exists i, j, k :: 0 <= i < |policies| && 0 <= j < |policies[i].rules|
                           && 0 <= k < |policies[i].rules[j].rules|
                           && row == RuleRow(policies[i].subject, NamespaceColumn(policies[i].rules[j].namespace),
                                             policies[i].rules[j].rules[k], nz)
  {
    var entries := Entries(policies);
    var m :| 0 <= m < |entries| && AllRows(policies, nz)[m] == row;
    var e := entries[m];
    EntryProvenance(policies, e);
    RowsOfIndex(entries, nz, m);
    assert row == EntryRow(e, nz);
  }

  /** The columns of a rule's row, in order, stated against the rule:
      kind and name of the subject, the namespace column as given, `*` for
      cluster scope, and a placeholder for each empty field except verbs,
      which render as the empty string. */
  lemma RuleRowColumns(subject: Subject, namespace: string, rule: PolicyRule, nz: Normalizers)
    ensures var row := RuleRow(subject, NamespaceColumn(namespace), rule, nz);
      && row[0] == subject.kind
      && row[1] == subject.name
      && (namespace == "" ==> row[3] == "*")
      && (namespace != "" ==> row[3] == namespace)
      && (rule.verbs == [] ==> row[2] == "")
      && (rule.apiGroups == [] ==> row[4] == "-")
      && (rule.resources == [] ==> row[5] == "-")
      && (rule.nonResourceURLs == [] ==> row[7] == "-")
      && (rule.resourceNames == [] && rule.apiGroups == [] ==> row[6] == "-")
      && (rule.resourceNames == [] && rule.apiGroups != [] ==> row[6] == "*")
  {
    var normalized := NormalizedRule(rule, nz);
    NormalizedLength(rule.verbs, nz.toWildCard);
    NormalizedLength(rule.apiGroups, nz.toCore);
    NormalizedLength(rule.resources, nz.toWildCard);
    NormalizedLength(rule.resourceNames, nz.toWildCard);
    NormalizedLength(rule.nonResourceURLs, nz.toWildCard);
    ColumnsPlaceholders(subject, NamespaceColumn(namespace), normalized);
  }

  /** The columns of a rule's non-empty fields: each lists the field's
      normalized, sorted elements joined by commas; verbs are always joined. */
  lemma RuleRowJoins(subject: Subject, namespace: string, rule: PolicyRule, nz: Normalizers)
    ensures var row := RuleRow(subject, namespace, rule, nz);
      && row[2] == Join(Normalized(rule.verbs, nz.toWildCard), ',')
      && (rule.apiGroups != [] ==> row[4] == Join(Normalized(rule.apiGroups, nz.toCore), ','))
      && (rule.resources != [] ==> row[5] == Join(Normalized(rule.resources, nz.toWildCard), ','))
      && (rule.resourceNames != [] ==> row[6] == Join(Normalized(rule.resourceNames, nz.toWildCard), ','))
      && (rule.nonResourceURLs != [] ==> row[7] == Join(Normalized(rule.nonResourceURLs, nz.toWildCard), ','))
  {
    NormalizedLength(rule.apiGroups, nz.toCore);
    NormalizedLength(rule.resources, nz.toWildCard);
    NormalizedLength(rule.resourceNames, nz.toWildCard);
    NormalizedLength(rule.nonResourceURLs, nz.toWildCard);
    ColumnsJoins(subject, namespace, NormalizedRule(rule, nz));
  }

  /** The normalizers and the sort keep a field's length. */
  lemma NormalizedLength(values: seq<string>, replace: string -> string)
    ensures |Normalized(values, replace)| == |values|
  {
    var mapped := Map(replace, values);
    assert |Sort(mapped)| == |multiset(Sort(mapped))| == |multiset(mapped)| == |mapped|;
  }

  lemma ColumnsPlaceholders(subject: Subject, namespace: string, rule: PolicyRule)
    ensures var row := Columns(subject, namespace, rule);
      && row[0] == subject.kind
      && row[1] == subject.name
      && row[3] == namespace
      && (rule.verbs == [] ==> row[2] == "")
      && (rule.apiGroups == [] ==> row[4] == "-")
      && (rule.resources == [] ==> row[5] == "-")
      && (rule.nonResourceURLs == [] ==> row[7] == "-")
      && (rule.resourceNames == [] && rule.apiGroups == [] ==> row[6] == "-")
      && (rule.resourceNames == [] && rule.apiGroups != [] ==> row[6] == "*")
  {
  }

  lemma ColumnsJoins(subject: Subject, namespace: string, rule: PolicyRule)
    ensures var row := Columns(subject, namespace, rule);
      && row[2] == Join(rule.verbs, ',')
      && (rule.apiGroups != [] ==> row[4] == Join(rule.apiGroups, ','))
      && (rule.resources != [] ==> row[5] == Join(rule.resources, ','))
      && (rule.resourceNames != [] ==> row[6] == Join(rule.resourceNames, ','))
      && (rule.nonResourceURLs != [] ==> row[7] == Join(rule.nonResourceURLs, ','))
  {
  }

  /** An empty resource-names field under some API group and one under no
      API group never render the same. */
  lemma ResourceNamesPlaceholdersDiffer(subject: Subject, namespace: string, grouped: PolicyRule, ungrouped: PolicyRule, nz: Normalizers)
    requires grouped.resourceNames == [] && grouped.apiGroups != []
    requires ungrouped.resourceNames == [] && ungrouped.apiGroups == []
    ensures RuleRow(subject, namespace, grouped, nz)[6] != RuleRow(subject, namespace, ungrouped, nz)[6]
  {
    RuleRowColumns(subject, namespace, grouped, nz);
    RuleRowColumns(subject, namespace, ungrouped, nz);
  }

  /** A non-empty field column lists exactly the normalized elements, in
      sorted order, when no normalized element contains a comma. */
  lemma FieldColumnLists(values: seq<string>, replace: string -> string)
    requires values != []
    requires forall i :: 0 <= i < |values| ==> ',' !in replace(values[i])
    ensures var pieces := Split(FieldColumn(Normalized(values, replace)), ',');
      && SortedBy(pieces, StrLess)
      && multiset(pieces) == multiset(Map(replace, values))
  {
    var sorted := Normalized(values, replace);
    var mapped := Map(replace, values);
    assert |sorted| == |multiset(sorted)| == |multiset(mapped)| == |values|;
    forall i | 0 <= i < |sorted| ensures ',' !in sorted[i] {
      assert sorted[i] in multiset(mapped);
      var k :| 0 <= k < |mapped| && mapped[k] == sorted[i];
      MapIndex(replace, values, k);
    }
    SplitJoin(sorted, ',');
  }

  // ---------------------------------------------------------- row order

  /** The table's `sort.Slice` comparator: by kind, then by name. */
  predicate RowLess(r: Row, s: Row)
  {
    if r[0] == s[0] then StrLess(r[1], s[1]) else StrLess(r[0], s[0])
  }

  lemma RowLessIsAsymmetric()
    ensures Asymmetric(RowLess)
  {
    forall r: Row, s: Row ensures RowLess(r, s) ==> !RowLess(s, r) {
      StrLessAsymmetric(r[0], s[0]);
      StrLessAsymmetric(r[1], s[1]);
    }
  }

  /** The table comparator is transitive, the other half of what
      `sort.Slice` asks of it. */
  lemma RowLessTransitive(r: Row, s: Row, t: Row)
    requires RowLess(r, s) && RowLess(s, t)
    ensures RowLess(r, t)
  {
    StrLessTransitive(r[0], s[0], t[0]);
    StrLessTransitive(r[1], s[1], t[1]);
    StrLessAsymmetric(r[0], s[0]);
    StrLessAsymmetric(s[0], t[0]);
  }

  /** Kind and name of `r` are at most those of `s`, compared
      lexicographically as a pair. */
  predicate KeyAtMost(r: Row, s: Row)
  {
    StrLess(r[0], s[0]) || (r[0] == s[0] && !StrLess(s[1], r[1]))
  }

  lemma KeyAtMostTransitive(r: Row, s: Row, t: Row)
    requires KeyAtMost(r, s) && KeyAtMost(s, t)
    ensures KeyAtMost(r, t)
  {
    StrLessTransitive(r[0], s[0], t[0]);
    StrLessAsymmetric(r[0], r[0]);
    if r[0] == s[0] == t[0] {
      NotLessTransitive(r[1], s[1], t[1]);
    }
  }

  lemma NotRowLessIsKeyAtMost(r: Row, s: Row)
    requires !RowLess(s, r)
    ensures KeyAtMost(r, s)
  {
    StrLessTotal(r[0], s[0]);
  }

  /** The sorted table is non-decreasing in (kind, name) between any two
      rows, not only neighbouring ones. */
  lemma {:induction false} SortedRowsOrdered(rows: seq<Row>, i: nat, j: nat)
    requires SortedBy(rows, RowLess) && i <= j < |rows|
    ensures KeyAtMost(rows[i], rows[j])
    decreases j - i
  {
    if i < j {
      SortedRowsOrdered(rows, i, j - 1);
      NotRowLessIsKeyAtMost(rows[j - 1], rows[j]);
      KeyAtMostTransitive(rows[i], rows[j - 1], rows[j]);
    } else {
      StrLessAsymmetric(rows[i][1], rows[i][1]);
    }
  }

  // -------------------------------------------------------- the command

  /** The result of a document branch: the encoder's text, or its error
      wrapped as a processing error. */
  function Encoded(format: Format, data: Result<string>): Result<Output>
  {
    match data
    case Success(text) => Success(Document(format, text))
    case Failure(e) => Failure(ProcessingErrorPrefix + e)
  }

  /** The table branch's `sort.Slice`: the rows are copied into a slice and
      sorted there by (kind, name). */
  method SortTable(rows: seq<Row>) returns (sorted: seq<Row>)
    ensures SortedBy(sorted, RowLess)
    ensures multiset(sorted) == multiset(rows)
  {
    var a := new Row[|rows|](i requires 0 <= i < |rows| => rows[i]);
    assert a[..] == rows;
    RowLessIsAsymmetric();
    SortSlice(a, RowLess);
    sorted := a[..];
  }

  /** The body of the command: choose and compile the pattern, reach the
      cluster, filter the subjects, build the rows, then dispatch on the
      output format. */
  method Run(regex: string, args: seq<string>, inverse: bool, output: string,
             compile: string -> Regexp, cluster: Cluster, nz: Normalizers,
             marshal: (Format, seq<SubjectPermissions>) -> Result<string>)
    returns (result: Result<Output>)
    ensures var re := compile(ChoosePattern(regex, args));
      && (re.CompileError? ==> result == Failure(re.message))
      && (re.Compiled? && cluster.ClientFailure? ==> result == Failure(ClientErrorPrefix + cluster.reason))
      && (re.Compiled? && cluster.FetchFailure? ==> result == Failure(cluster.reason))
      && (re.Compiled? && cluster.Snapshot? ==>
            var filtered := Filtered(cluster.policies, re.matches, inverse);
            && (output == "table" ==>
                  && result.Success? && result.value.Table?
                  && result.value.header == Header
                  && SortedBy(result.value.rows, RowLess)
                  && multiset(result.value.rows) == multiset(AllRows(filtered, nz)))
            && (output == "yaml" ==> result == Encoded(Yaml, marshal(Yaml, filtered)))
            && (output == "json" ==> result == Encoded(Json, marshal(Json, filtered)))
            && (output !in {"table", "yaml", "json"} ==> result == Failure(UnsupportedFormat)))
  {
    var pattern := ChoosePattern(regex, args);
    var re := compile(pattern);
    if re.CompileError? {
      return Failure(re.message);
    }
    var policies;
    match cluster {
      case ClientFailure(reason) =>
        return Failure(ClientErrorPrefix + reason);
      case FetchFailure(reason) =>
        return Failure(reason);
      case Snapshot(fetched) =>
        policies := fetched;
    }

    var filtered := FilterSubjects(policies, re.matches, inverse);
    var rows := BuildRows(filtered, nz);

    if output == "table" {
      var sorted := SortTable(rows);
      result := Success(Table(Header, sorted));
    } else if output == "yaml" {
      var data := marshal(Yaml, filtered);
      if data.Failure? {
        return Failure(ProcessingErrorPrefix + data.error);
      }
      result := Success(Document(Yaml, data.value));
    } else if output == "json" {
      var data := marshal(Json, filtered);
      if data.Failure? {
        return Failure(ProcessingErrorPrefix + data.error);
      }
      result := Success(Document(Json, data.value));
    } else {
      result := Failure(UnsupportedFormat);
    }
  }

  // ------------------------------------------------------------ examples

  /** In a sorted table every `Group` row comes before every `User` row. */
  lemma GroupRowsPrecedeUserRows(rows: seq<Row>, g: nat, u: nat)
    requires SortedBy(rows, RowLess)
    requires g < |rows| && u < |rows|
    requires rows[g][0] == "Group" && rows[u][0] == "User"
    ensures g < u
  {
    if u <= g {
      SortedRowsOrdered(rows, u, g);
      assert !StrLess("User", "Group");
    }
  }

  /** One service account with one cluster-scope rule granting `get` and
      `list` on pods gives the single row
      `ServiceAccount default get,list * - pods - -`, for normalizers that
      leave these values alone. */
  lemma ServiceAccountScenario(nz: Normalizers)
    requires nz.toWildCard("get") == "get" && nz.toWildCard("list") == "list"
    requires nz.toWildCard("pods") == "pods"
    ensures var sa := SubjectPermissions(Subject("ServiceAccount", "default"),
                        [ScopedRules("", [PolicyRule(["get", "list"], [], ["pods"], [], [])])]);
      AllRows([sa], nz) == [["ServiceAccount", "default", "get,list", "*", "-", "pods", "-", "-"]]
  {
    var rule := PolicyRule(["get", "list"], [], ["pods"], [], []);
    var subject := Subject("ServiceAccount", "default");
    SingleEntry(subject, "", rule);
    RowsOfSingle(Entry(subject, "", rule), nz);
    ServiceAccountRow(nz);
  }

  lemma SingleEntry(subject: Subject, namespace: string, rule: PolicyRule)
    ensures Entries([SubjectPermissions(subject, [ScopedRules(namespace, [rule])])])
         == [Entry(subject, namespace, rule)]
  {
    var scope := ScopedRules(namespace, [rule]);
    var p := SubjectPermissions(subject, [scope]);
    assert [rule][..0] == [] && [scope][..0] == [] && [p][..0] == [];
    assert ScopeEntries(subject, namespace, [rule]) == [Entry(subject, namespace, rule)];
    assert SubjectEntries(subject, [scope]) == [Entry(subject, namespace, rule)];
  }

  lemma ServiceAccountRow(nz: Normalizers)
    requires nz.toWildCard("get") == "get" && nz.toWildCard("list") == "list"
    requires nz.toWildCard("pods") == "pods"
    ensures RuleRow(Subject("ServiceAccount", "default"), "*", PolicyRule(["get", "list"], [], ["pods"], [], []), nz)
         == ["ServiceAccount", "default", "get,list", "*", "-", "pods", "-", "-"]
  {
    ServiceAccountRuleNormalized(nz);
    ServiceAccountColumns();
  }

  lemma ServiceAccountColumns()
    ensures Columns(Subject("ServiceAccount", "default"), "*", PolicyRule(["get", "list"], [], ["pods"], [], []))
         == ["ServiceAccount", "default", "get,list", "*", "-", "pods", "-", "-"]
  {
    assert Join(["get", "list"], ',') == "get,list";
  }

  lemma ServiceAccountRuleNormalized(nz: Normalizers)
    requires nz.toWildCard("get") == "get" && nz.toWildCard("list") == "list"
    requires nz.toWildCard("pods") == "pods"
    ensures var rule := PolicyRule(["get", "list"], [], ["pods"], [], []);
      NormalizedRule(rule, nz) == rule
  {
    assert StrLess("get", "list");
    NormalizedPair("get", "list", nz.toWildCard);
    NormalizedSingle("pods", nz.toWildCard);
    NormalizedEmpty(nz.toCore);
    NormalizedEmpty(nz.toWildCard);
  }

  lemma NormalizedEmpty(f: string -> string)
    ensures Normalized([], f) == []
  {
    assert Map(f, []) == [];
  }

  lemma NormalizedSingle(a: string, f: string -> string)
    requires f(a) == a
    ensures Normalized([a], f) == [a]
  {
    MapSingle(f, a);
    SortSingle(a);
  }

  lemma NormalizedPair(a: string, b: string, f: string -> string)
    requires f(a) == a && f(b) == b && StrLess(a, b)
    ensures Normalized([a, b], f) == [a, b]
  {
    MapSingle(f, a);
    MapSingle(f, b);
    MapAppend(f, [a], [b]);
    assert [a] + [b] == [a, b];
    SortPair(a, b);
  }

  /** `-e '^system:.*'` keeps `system:node:foo` and drops `alice`; adding
      `-n` reverses both. */
  lemma SystemPrefixScenario(matches: string -> bool, node: SubjectPermissions, alice: SubjectPermissions)
    requires node.subject.name == "system:node:foo" && alice.subject.name == "alice"
    requires matches("system:node:foo") && !matches("alice")
    ensures Filtered([node, alice], matches, false) == [node]
    ensures Filtered([node, alice], matches, true) == [alice]
  {
    assert [node, alice][..1] == [node];
    assert [node][..0] == [];
    assert Filtered([node], matches, false) == [node];
    assert Filtered([node], matches, true) == [];
  }
}
