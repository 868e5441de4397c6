# gitlab-json-inheritance-go: the resolution engine in Dafny

This project models the configuration resolver of `gitlab-json-inheritance-go`
(`configresolver.go`). The resolver takes a JSON configuration document. The
document may declare parent documents under the key `extends`, as one string
or an array of strings. The resolver then does four things:

- It parses each reference. `gitlab@branch>project` names a branch and a
  project. A `gitlab@` string without a `>` is invalid syntax. Every other
  `gitlab`-prefixed string, outside the `gitlab@` form, names branch `main`,
  with a leading `gitlab>` removed. Anything else is unsupported.
- It fetches each parent through a `Fetcher`. It resolves each parent's own
  `extends` recursively, and merges the parent over its resolved ancestors.
- It folds the parents left to right with a deep merge, then overlays the
  document's own fields. The top-level `extends` key is deleted.
- It detects cycles with one visited set. That set is shared by the whole
  recursive walk and is never reset per branch.

The project is made of these modules:

- `Json` (`json.dfy`) holds the JSON value datatype, documents as
  `map<string, Json>`, and the error kinds. Numbers are opaque tokens.
- `Merge` (`merge.dfy`) holds the deep merge. `Merged` is its specification.
  `MergeMaps` is the imperative copy-then-overlay loop of `mergeMaps`, proved
  equal to `Merged`.
- `Extends` (`extends.dfy`) holds the normalisation of an `extends` value:
  `StringList` specifies it, and the loop `ToStringSlice` is proved equal to it.
- `Reference` (`reference.dfy`) holds the inline reference parsing, as
  `ParseRef`.
- `Resolver` (`resolver.dfy`) holds the recursive resolution. It has three
  specification functions that thread the visited set in and out:
  - `Resolved` is one call of `resolveWithFetcher`;
  - `ResolvedRefs` is its loop over the extends list;
  - `ParentLayer` is one iteration of that loop.

  The imperative methods `Resolve`, `ResolveParents` and `ResolveParent`
  work on two objects: a `Visited` object, shared by all recursive calls, and
  a `Config` object, whose `extends` key is deleted in place. Each method is
  proved to return what its specification function returns and to leave the
  objects as that function says. `ResolveConfigString` is the entry point.
  It starts from a fresh, empty visited set.
- `ResolverProperties` (`properties.dfy`) holds what resolution guarantees:
  - cycle detection through the shared visited set;
  - key bounds;
  - error propagation;
  - precedence.
- `Scenarios` (`scenarios.dfy`) holds a diamond of two siblings sharing an
  ancestor, and the behaviours of the repository's test
  file, stated on concrete documents.

The comment at `gitlab-json-inheritance-go/configresolver.go:48-50` lists
only two syntaxes, `gitlab>namespace/project` and
`gitlab@branch>namespace/project`. The code at lines 44-61, however, accepts
every `gitlab`-prefixed string outside the `gitlab@` form. A string such as `gitlabX` reads as
project `gitlabX` on branch `main`, because `strings.TrimPrefix` leaves it
unchanged. The model follows the code; this is `Reference.ParseBareScheme`.

## Model

| member | source | states |
|---|---|---|
| Merge.Merged | gitlab-json-inheritance-go/configresolver.go:92-109 | the merge of two documents has exactly the keys of both |
| Merge.MergeRule | gitlab-json-inheritance-go/configresolver.go:97-107 | a key only in the base keeps the base value; a key of the overlay takes the overlay value unless both values are objects, and then it is the recursive merge with the union of their keys |
| Merge.MergeMaps | gitlab-json-inheritance-go/configresolver.go:92-109 | the copy loop followed by the overlay loop (recursing on two objects) builds exactly the merge, whatever order the keys are visited in |
| Merge.MergeRightIdentity | gitlab-json-inheritance-go/configresolver.go:93-96 | merging an empty overlay gives the base back |
| Merge.MergeLeftIdentity | gitlab-json-inheritance-go/configresolver.go:97-107 | merging over an empty base gives the overlay back |
| Merge.MergeIdempotent | gitlab-json-inheritance-go/configresolver.go:97-107 | a document merged with itself, at any depth, is itself |
| Merge.MergeOverlayIdempotent | gitlab-json-inheritance-go/configresolver.go:97-107 | merging the same overlay a second time changes nothing |
| Merge.MergeShallowWhenNoNestedObjects | gitlab-json-inheritance-go/configresolver.go:97-107 | when no key holds an object on both sides, the deep merge is plain map override |
| Merge.MergeNotAssociative | gitlab-json-inheritance-go/configresolver.go:92-109 | a concrete triple of documents for which the two groupings differ, so the left-to-right fold order matters |
| Extends.Strings | gitlab-json-inheritance-go/configresolver.go:118-124 | the strings of an all-string array, same length, same order, element by element |
| Extends.StringList | gitlab-json-inheritance-go/configresolver.go:112-129 | normalisation succeeds exactly on a string or an array whose items are all strings; a string gives the one-element list; an array gives its strings, one per item, in order |
| Extends.StringListOfArray | gitlab-json-inheritance-go/configresolver.go:116-125 | normalising the JSON array of any list of strings gives that list back (round trip) |
| Extends.StringListSource | gitlab-json-inheritance-go/configresolver.go:112-129 | a successfully normalised array is the JSON array of the strings it normalised to |
| Extends.ToStringSlice | gitlab-json-inheritance-go/configresolver.go:112-129 | the loop reports success exactly when normalisation succeeds, returns the normalised list then, and the empty list with no partial output otherwise |
| Reference.TrimPrefix | gitlab-json-inheritance-go/configresolver.go:60 | a present prefix is removed and only it; an absent one leaves the string unchanged |
| Reference.HasPrefix | gitlab-json-inheritance-go/configresolver.go:44 | a string starts with a prefix exactly when it is at least as long and agrees with it position by position |
| Reference.PrefixConcat | gitlab-json-inheritance-go/configresolver.go:52 | a prefix followed by any rest starts with that prefix, and trimming the prefix gives the rest back |
| Reference.FirstIndex | gitlab-json-inheritance-go/configresolver.go:53 | the index of the first occurrence of the separator, or none exactly when it does not occur |
| Reference.ParseRef | gitlab-json-inheritance-go/configresolver.go:44-70 | unsupported exactly without the `gitlab` prefix; invalid syntax exactly for `gitlab@` with no `>`; otherwise the `@` form splits at the first `>` and every other form reads branch `main` with `gitlab>` trimmed |
| Reference.ParseBranchForm | gitlab-json-inheritance-go/configresolver.go:51-58 | `gitlab@B>P` parses to branch B and project P for every B without `>` and every P |
| Reference.ParseDefaultForm | gitlab-json-inheritance-go/configresolver.go:59-61 | `gitlab>P` parses to branch `main` and project P |
| Reference.ParseBareScheme | gitlab-json-inheritance-go/configresolver.go:44-61 | `gitlabX` is accepted, as project `gitlabX` on branch `main` |
| Resolver.Fetch | configresolver_test.go:16-30 | a location the table does not hold fails as an unknown reference; a held location gives its stored reply |
| Resolver.Resolved | gitlab-json-inheritance-go/configresolver.go:20-89 | resolution never removes a reference from the visited set it is given |
| Resolver.ResolvedRefs | gitlab-json-inheritance-go/configresolver.go:35-83 | the loop over the extends list never removes a visited reference |
| Resolver.ParentLayer | gitlab-json-inheritance-go/configresolver.go:38-80 | one parent never removes a visited reference, and an unvisited reference is visited afterwards, whatever the outcome |
| Resolver.Visited.constructor | gitlab-json-inheritance-go/configresolver.go:16 | a new visited set is empty |
| Resolver.Config.constructor | gitlab-json-inheritance-go/configresolver.go:74 | a new configuration object holds exactly the document it is built from |
| Resolver.Resolve | gitlab-json-inheritance-go/configresolver.go:20-89 | the method's result and the new visited set are those of the specification; on success `extends` is deleted from the caller's document and nothing else in it changes, on failure it is untouched |
| Resolver.ResolveParents | gitlab-json-inheritance-go/configresolver.go:35-83 | the loop's accumulated result and visited set are those of the specification, starting from an empty accumulator |
| Resolver.ResolveParent | gitlab-json-inheritance-go/configresolver.go:38-80 | one iteration (visit, parse, fetch, recursive resolution of the parent's own `extends`, merge under the parent) matches the specification |
| Resolver.ResolveConfigString | gitlab-json-inheritance-go/configresolver.go:11-18 | an undecodable text fails as invalid JSON; a decoded document is resolved from an empty visited set |
| ResolverProperties.ResolvedVisits | gitlab-json-inheritance-go/configresolver.go:37-41 | the visited set only gains references declared somewhere; a successful resolution met none of its own references already visited and leaves all of them visited |
| ResolverProperties.ResolvedRefsVisits | gitlab-json-inheritance-go/configresolver.go:37-41 | the same for the loop; a successful pass over a list had no repeated reference |
| ResolverProperties.ParentLayerVisits | gitlab-json-inheritance-go/configresolver.go:38-80 | one parent adds only itself and declared references to the visited set, and succeeds only when it was not visited before |
| ResolverProperties.ParentLayerFetched | gitlab-json-inheritance-go/configresolver.go:41-80 | a successful parent was unvisited, parsed and fetched; its layer holds every key of the fetched document; every reference that document declares is now visited |
| ResolverProperties.RevisitFails | gitlab-json-inheritance-go/configresolver.go:38-39 | a document declaring a reference that is already visited fails |
| ResolverProperties.VisitedRefFails | gitlab-json-inheritance-go/configresolver.go:38-40 | a reference already in the visited set fails with a cycle error carrying that reference, with the visited set unchanged |
| ResolverProperties.RepeatedSiblingFails | gitlab-json-inheritance-go/configresolver.go:37-41 | an extends list naming the same reference twice fails |
| ResolverProperties.VisitedAncestorFails | gitlab-json-inheritance-go/configresolver.go:73-78 | a parent whose fetched document declares a visited reference fails, through the shared visited set of the recursive call |
| ResolverProperties.SharedAncestorFails | gitlab-json-inheritance-go/configresolver.go:37-83 | two entries of the list, at any positions i < j, whose fetched documents both declare a common reference make the pass fail, although neither is an ancestor of the other |
| ResolverProperties.FirstDeclarerThenLater | gitlab-json-inheritance-go/configresolver.go:37-83 | when the first entry's fetched document declares a reference, any later entry whose fetched document declares it too makes the pass fail |
| ResolverProperties.LaterDeclarerFails | gitlab-json-inheritance-go/configresolver.go:37-83 | once a reference is visited, any later entry of the list whose fetched document declares it makes the pass fail, whatever entries come between |
| ResolverProperties.SelfExtendingParentFails | gitlab-json-inheritance-go/configresolver.go:38-77 | a parent whose own first reference is itself fails with a cycle error on that reference |
| ResolverProperties.ResolvedKeys | gitlab-json-inheritance-go/configresolver.go:85-88 | a successful result keeps every local key but `extends`, and holds only local keys and keys of fetchable documents |
| ResolverProperties.ResolvedRefsKeys | gitlab-json-inheritance-go/configresolver.go:79-82 | the loop keeps every accumulated key and adds only keys of fetchable documents |
| ResolverProperties.ParentLayerKeys | gitlab-json-inheritance-go/configresolver.go:73-80 | one parent layer holds only keys of fetchable documents |
| ResolverProperties.LocalValuesWin | gitlab-json-inheritance-go/configresolver.go:85-88 | local fields override everything: a local value that is not an object is the result's value |
| ResolverProperties.ParentFieldsWin | gitlab-json-inheritance-go/configresolver.go:79 | a parent's own value that is not an object overrides its ancestors' |
| ResolverProperties.TopLevelExtendsRemoved | gitlab-json-inheritance-go/configresolver.go:86-88 | when no fetchable document holds `extends`, a successful result holds none |
| ResolverProperties.ParentExtendsKept | gitlab-json-inheritance-go/configresolver.go:73-88 | only the top-level `extends` is deleted: one held by any parent in the extends list is copied into a successful result |
| ResolverProperties.BaseCases | gitlab-json-inheritance-go/configresolver.go:21-33 | a missing Fetcher fails; a document without `extends` is returned as is with the visited set unchanged; a badly shaped `extends` fails with nothing visited |
| ResolverProperties.ParseErrorSkipsFetch | gitlab-json-inheritance-go/configresolver.go:44-70 | a reference that does not parse fails with the parse error after being marked visited, and the outcome does not depend on the Fetcher at all |
| ResolverProperties.FetchErrorAborts | gitlab-json-inheritance-go/configresolver.go:63-67 | a fetch error aborts the resolution with that same error, and the reference stays visited |
| ResolverProperties.AncestorErrorAborts | gitlab-json-inheritance-go/configresolver.go:75-78 | an error while resolving a parent's ancestors is the outcome of the whole loop |
| ResolverProperties.Layered | gitlab-json-inheritance-go/configresolver.go:82 | the left-to-right fold of parents never loses an accumulated key |
| ResolverProperties.LastParentWins | gitlab-json-inheritance-go/configresolver.go:82 | in the fold, the last parent's non-object value wins at its key |
| ResolverProperties.ResolvedRefsLayered | gitlab-json-inheritance-go/configresolver.go:37-83 | a successful pass over any extends list, parents with ancestors included, is the left fold of its parent layers in declaration order, one layer per reference |
| ResolverProperties.LastLayerWins | gitlab-json-inheritance-go/configresolver.go:82 | later references override earlier ones: in a successful pass, the last parent layer decides every key where its value is not an object |
| ResolverProperties.LeafParentsLayer | gitlab-json-inheritance-go/configresolver.go:37-83 | distinct unvisited references to parents without ancestors resolve to those parents folded in declaration order, and all of them end up visited |
| ResolverProperties.ResolvedLeafParents | gitlab-json-inheritance-go/configresolver.go:35-88 | a document over such parents resolves to their fold with its own fields (without `extends`) merged on top |
| Scenarios.MergeRulesExample | configresolver_test.go:33-61 | the merge test: nested `rules` merge key by key, `root` survives |
| Scenarios.ArrayReplacedExample | gitlab-json-inheritance-go/configresolver.go:106 | an array overlay replaces an array base wholesale |
| Scenarios.StringListExamples | configresolver_test.go:63-81 | the four normalisation cases of the test |
| Scenarios.TwoParentResolution | configresolver_test.go:83-116 | two parents, the second on an explicit branch, plus a local field, resolve to the union of all three rule sets, for every pair of project names and every branch other than `main` that contains no `>` |
| Scenarios.BasicResolution | configresolver_test.go:83-116 | the resolution test's own documents give the expected result |
| Scenarios.CircularResolution | configresolver_test.go:118-135 | a parent that extends itself fails with a cycle error on that reference |
| Scenarios.DiamondSides | gitlab-json-inheritance-go/configresolver.go:38-78 | in a diamond, the first sibling succeeds and leaves the common ancestor visited, so the second fails with a cycle on it |
| Scenarios.DiamondResolution | gitlab-json-inheritance-go/configresolver.go:37-83 | two siblings that both extend `gitlab>common` fail with a cycle on `gitlab>common`, although neither is an ancestor of the other |
| Scenarios.UnknownReferenceResolution | configresolver_test.go:137-146 | a reference the Fetcher does not know fails with the unknown-reference error |
| Scenarios.UnsupportedResolution | configresolver_test.go:155-164 | `npm>package` fails as unsupported |

## Left out

- The GitLab Fetcher (`gitlab-json-inheritance-go/fetcher.go`) is not part of this model: it makes network calls. A Fetcher is a finite table of replies, or nil.
- JSON text decoding in the entry point is a library call. The entry point takes the decoder's outcome, a document or a failure.
- `example.go` (a command-line program) and `gitlab_fetcher_test.go` (an HTTP mock) are not part of this model.
- Numbers are opaque tokens. The resolver never inspects them, so float64 conversions are not modelled.
- Error messages and `%w` wrapping are not modelled. Errors are kinds with their reference or cause.
- Go map aliasing is not modelled. The model does not capture that a document without `extends` comes back as the very same map (line 27), nor that merged results share nested maps with their inputs. Documents are values. Only the caller-owned visited set and the caller's top-level document are objects updated in place.
- The inputs of `mergeMaps` are never modified: Dafny value semantics give this. Freshness of the output map is not stated separately.
- Go's random map iteration order is modelled by choosing an arbitrary pending key in each loop of `MergeMaps`.
- The Fetcher is a finite table, and termination rests on that: every successful step visits a new reference, and only finitely many references are declared. The Go resolver has no guard other than the visited set, so a Fetcher that keeps returning documents extending ever new references would make the recursive call at line 75 recurse until the stack runs out. Such a Fetcher is not modelled.
