# rbac-tool `policy-rules`: a Dafny model

This project models the core of the `policy-rules` command of rbac-tool
(`cmd/policyrules_cmd.go`, the body of the `RunE` closure of
`NewCommandPolicyRules`). The command takes the RBAC permissions of every
subject (user, group or service account) in a cluster and:

1. chooses a name pattern and compiles it;
2. keeps each subject exactly when "the pattern matches its name" differs
   from "inverted" (`-n`);
3. turns every (subject, namespace, rule) of the kept subjects into one
   eight-column row: kind, name, verbs, namespace, API groups, resources,
   resource names, non-resource URLs. The namespace `""` (cluster scope) shows
   as `*`. Each rule field is normalized, sorted and comma-joined. An empty
   field shows as `-`, except verbs, which show as the empty string, and
   resource names, which show as `*` when the rule has API groups;
4. writes the rows sorted by (kind, name) for `-o table`, or the kept
   subjects through the YAML or JSON encoder, and rejects any other output
   format.

Modules:

- `Sorting` (`sorting.dfy`): `SortSlice`, an in-place sort of an array by a
  caller's `less` function. It promises what `sort.Slice` and `sort.Strings`
  promise: the result is sorted and is a permutation of the input.
- `Text` (`text.dfy`): the order of `strings.Compare` (`StrLess`), compared
  character by character on Unicode scalar values, and proved total,
  asymmetric and transitive. `Sort` is a reference definition of what
  `sort.Strings` leaves behind; `SortedUnique` proves that any sorted
  permutation equals it. `Join` is `strings.Join`. The command never calls
  `strings.Split`; `Split` is a reference inverse of `Join`. It gives back
  `Join`'s input only for a non-empty list of elements without the
  separator (`SplitJoin`).
- `Seqs` (`seqs.dfy`): the element-wise map `Map`, with its indexing and
  append lemmas, and associativity of concatenation, all over abstract
  element types.
- `PolicyRules` (`policy_rules.dfy`): the data model, the filter, the row
  builder, the row order and the whole command (`Run`).

Foreign collaborators are parameters of the model:

- `compile: string -> Regexp` is `regexp.Compile`. It returns a name matcher
  or a compile error, so regular-expression semantics stay opaque.
- `Cluster` is what `kube.NewClient` plus `rbac.NewPermissionsFromCluster`
  and `rbac.NewSubjectPermissions` produced: a client error, a fetch error,
  or the subjects' permissions.
- `Normalizers` holds `rbac.ReplaceToCore` and `rbac.ReplaceToWildCard` as
  element-wise string maps. These calls rewrite a slice in place and cannot
  change its length.
- `marshal` stands for `rbac.NewSubjectPermissionsList` followed by
  `yaml.Marshal` or `json.Marshal`.

Behaviour of the code worth noting:

- An unsupported output format is reported only after the client was
  created, the permissions were fetched and the rows were built. So a
  client or fetch error takes precedence over it. It is not a check made up
  front.
- The table sort is `sort.Slice`, which is not stable. Nothing is promised
  about the order of rows with equal (kind, name).
- Only the positional-argument pattern gets the `(?mi)` flags. A `--regex`
  value is used verbatim.

## Model

| member | source | states |
|---|---|---|
| `PolicyRules.ChoosePattern` | cmd/policyrules_cmd.go:52-60 | A non-empty `--regex` is used verbatim. Otherwise exactly one positional argument gives `(?mi)` followed by it, and any other argument count gives `.*`. The pattern is never empty. |
| `PolicyRules.Keep` | cmd/policyrules_cmd.go:81-95 | The nested skip conditions keep a subject exactly when `matched != inverse`: the four-line truth table. |
| `PolicyRules.FilterSubjects` | cmd/policyrules_cmd.go:77-98 | The filter loop returns exactly `Filtered`: the subjects not skipped, appended in input order. |
| `PolicyRules.FilteredMembers` | cmd/policyrules_cmd.go:78-97 | A subject is in the filtered list if and only if it is in the input and `matches(name) != inverse`. |
| `PolicyRules.FilteredIsSubsequence` | cmd/policyrules_cmd.go:77-98 | The filtered list is an order-preserving subsequence of the input. |
| `PolicyRules.InverseKeepsComplement` | cmd/policyrules_cmd.go:87-95 | The plain and the inverted filter split the input between them: together they keep every subject exactly once. |
| `PolicyRules.SystemPrefixScenario` | cmd/policyrules_cmd.go:40-44 | With a matcher that accepts `system:node:foo` and rejects `alice`, the plain filter keeps only the first and `-n` keeps only the second. |
| `PolicyRules.Replace` | cmd/policyrules_cmd.go:112-116 | A normalizer call rewrites each element of the slice in place through its map and keeps the slice's length. |
| `PolicyRules.NormalizeField` | cmd/policyrules_cmd.go:112-122 | Normalizing a field and then sorting it in place with `sort.Strings` leaves exactly `Sort` of the mapped field, whatever sort routine runs. |
| `PolicyRules.NormalizeRule` | cmd/policyrules_cmd.go:112-122 | API groups go through `ReplaceToCore`, the other four fields through `ReplaceToWildCard`, and every field is then sorted. |
| `PolicyRules.RenderRule` | cmd/policyrules_cmd.go:110-158 | The row built for one rule is `RuleRow`: its normalized, sorted fields joined with their placeholders. What each column of `RuleRow` holds is stated by `RuleRowColumns` and `RuleRowJoins`. |
| `PolicyRules.AppendScopeRows` | cmd/policyrules_cmd.go:105-160 | The loop over one namespace's rules appends one row per rule, in rule order, with the namespace column `*` for cluster scope. |
| `PolicyRules.AppendSubjectRows` | cmd/policyrules_cmd.go:105-160 | The loop over a subject's namespaces appends the rows of every namespace, in the order the map was iterated. |
| `PolicyRules.BuildRows` | cmd/policyrules_cmd.go:100-161 | The nested loops produce exactly `AllRows`: one row per (subject, namespace, rule) triple, in visiting order. |
| `PolicyRules.RowCount` | cmd/policyrules_cmd.go:100-161 | The number of rows equals the total number of rules over all namespaces of all subjects. |
| `PolicyRules.EveryRuleHasRow` | cmd/policyrules_cmd.go:102-158 | No rule is lost: every rule of every subject, under every namespace, has its row among the built rows. |
| `PolicyRules.RowProvenance` | cmd/policyrules_cmd.go:102-158 | No row is fabricated: every built row is the row of one rule of one subject, under one of that subject's namespaces (`*` for cluster scope). |
| `PolicyRules.RuleRowColumns` | cmd/policyrules_cmd.go:105-157 | Column 0 is the kind and column 1 the name. The namespace column is `*` for `""` and otherwise the namespace unchanged. Empty verbs render as `""`, and empty API groups, resources and non-resource URLs as `-`. Empty resource names render as `-` under no API groups and `*` otherwise. |
| `PolicyRules.RuleRowJoins` | cmd/policyrules_cmd.go:124-157 | The verbs column is always the normalized, sorted verbs joined by commas. Each other field, when non-empty, has a column listing its normalized, sorted elements joined by commas (API groups through `ReplaceToCore`, the rest through `ReplaceToWildCard`). |
| `PolicyRules.NormalizedLength` | cmd/policyrules_cmd.go:112-122 | Normalizing and sorting a field keeps its length, so emptiness tests after normalization agree with the raw rule. |
| `PolicyRules.ResourceNamesPlaceholdersDiffer` | cmd/policyrules_cmd.go:134-141 | Without resource names, a rule with API groups and a rule without always render different resource-names columns. |
| `PolicyRules.FieldColumnLists` | cmd/policyrules_cmd.go:118-133 | Suppose a field is non-empty and no normalized element contains a comma. Then splitting its column at commas gives the normalized elements: sorted, and a permutation of the mapped field. |
| `PolicyRules.ServiceAccountScenario` | cmd/policyrules_cmd.go:100-161 | Take one service account `default` with one cluster-scope rule granting `get`, `list` on `pods`. It yields the single row `ServiceAccount, default, get,list, *, -, pods, -, -`. |
| `PolicyRules.RowLessIsAsymmetric` | cmd/policyrules_cmd.go:165-171 | The table comparator (kind, then name on equal kinds) never holds both ways round. |
| `PolicyRules.RowLessTransitive` | cmd/policyrules_cmd.go:165-171 | The table comparator is transitive. Together with asymmetry and `KeyAtMostTransitive` for "not less", it is the strict weak ordering `sort.Slice` asks for. |
| `PolicyRules.SortedRowsOrdered` | cmd/policyrules_cmd.go:165-171 | In the sorted table, any earlier row has (kind, name) lexicographically at most that of any later row. |
| `PolicyRules.GroupRowsPrecedeUserRows` | cmd/policyrules_cmd.go:165-171 | In the sorted table every `Group` row precedes every `User` row. |
| `PolicyRules.SortTable` | cmd/policyrules_cmd.go:165-171 | The table rows after `sort.Slice` are sorted by (kind, name) and are a permutation of the rows before it. |
| `PolicyRules.Run` | cmd/policyrules_cmd.go:48-204 | A compile error is returned as is, before the cluster is consulted. A client error is wrapped as "Failed to create kubernetes client - …" and a fetch error is returned unchanged. `table` gives the header and a sorted permutation of the rows of the filtered subjects. `yaml`/`json` give the encoder's text of the filtered subjects, or "Processing error - …". Any other format gives "Unsupported output format". |
| `Sorting.SortSlice` | cmd/policyrules_cmd.go:165-171 | The in-place sort leaves the array sorted by the comparator and a permutation of its old contents. |
| `Sorting.InsertLast` | cmd/policyrules_cmd.go:165-171 | One insertion step: with a sorted prefix, the next element moves to its place, the prefix stays a permutation and later elements do not move. |
| `Text.StrLessTotal` | cmd/policyrules_cmd.go:166-170 | `strings.Compare` order is total: two different strings are ordered one way or the other. |
| `Text.StrLessTransitive` | cmd/policyrules_cmd.go:166-170 | `strings.Compare` order is transitive. |
| `Text.Sort` | cmd/policyrules_cmd.go:118-122 | The reference result of `sort.Strings` is sorted and a permutation of its input. |
| `Text.SortedUnique` | cmd/policyrules_cmd.go:118-122 | Two sorted sequences with the same elements are equal, so the in-place sort's result is determined by its input. |
| `Text.SortIdempotent` | cmd/policyrules_cmd.go:118-122 | Sorting an already sorted field changes nothing. |
| `Text.SplitJoin` | cmd/policyrules_cmd.go:124 | Joining comma-free elements with `,` and splitting the result at `,` gives the elements back. |
| `Text.JoinSplit` | cmd/policyrules_cmd.go:124 | Splitting any string at `,` and joining the pieces with `,` gives the string back. |

## Left out

- Cobra command and flag wiring, help text and flag defaults (lines 18-47 and 213-219): CLI plumbing. `Run` takes the flag values as parameters.
- `kube.NewClient` and `rbac.NewPermissionsFromCluster` (lines 66-74): cluster I/O. Their outcome is the `Cluster` input. `rbac.NewSubjectPermissions` is not part of this model, and its result is the subject list inside `Snapshot`.
- Regular-expression semantics, including the `(?mi)` flags: `compile` and the matcher it returns are opaque parameters.
- The internals of `rbac.ReplaceToCore` and `rbac.ReplaceToWildCard` are not part of this model. They appear only as element-wise maps, so idempotence of that canonicalization is not stated. Only idempotence of the sort is (`Text.SortIdempotent`).
- `rbac.NewSubjectPermissionsList`, `yaml.Marshal` and `json.Marshal` are folded into the opaque `marshal` parameter. Round trips of these encodings are not stated.
- `tablewriter` rendering and `fmt.Println`: the model stops at the header and the sorted rows, or at the encoded text.
- Go's map iteration order over a subject's namespaces is unspecified. The model takes the namespaces in a given order and claims no namespace order before the table sort.
- Aliasing: the source normalizes and sorts each rule's own slices in place (lines 112-122). The model instead maps and sorts a fresh copy of the rule as fetched, every time it is visited. The two agree only when `ReplaceToCore` and `ReplaceToWildCard` are idempotent on their own outputs, which this model assumes and does not state. That assumption matters in two places:
  - within the row builder, when one slice is visited more than once (for example one cluster role bound to two subjects), the source maps and sorts it again;
  - in the YAML/JSON branch, which may see fields already normalized.

  Whether either happens depends on `rbac` code that is not part of this model. The encoder is handed the subjects as fetched.
- `Sorting.SortSlice`: Go's actual `sort.Slice` algorithm (pattern-defeating quicksort) is not modelled. Only its contract is: sorted and a permutation, with no order among equal keys. The model sorts by insertion.
- `PolicyRules.BuildRows`: the source's three nested loops are modelled as one method per loop level (`BuildRows`, `AppendSubjectRows`, `AppendScopeRows`), so that each proof stays small. The behaviour is the same.
- `Text.Join` / `Text.Split`: the separator is a single character, which is all the source uses (`","`).
- `Text.StrLess`: Go's `strings.Compare` compares bytes. Comparing Unicode scalar values gives the same order only on valid UTF-8. A Go string holding invalid UTF-8 cannot be expressed as a Dafny `string`, so that case is not modelled.
