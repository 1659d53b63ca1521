# ssdlc-governance core in Dafny

This project models the core of the SSDLC governance tool. The tool gathers a company's source repositories from GitLab, GitHub and Bitbucket. For each repository it records:

- whether the repository is scanned by SonarQube and built in JFrog Artifactory;
- which vulnerabilities its deployed artifacts carry;
- who owns it, ranked and enriched with human-resources data.

From that data it produces an application-status sheet per VP, director and product.

The model covers, one Dafny module per source file:

- **Artifacts and builds.** The artifact-path parser and the AQL cache search and merge (`AqlCache.MergeAqlCaches` extends the caller's record list in place). It also covers the JFrog CI processor's build-to-repository correlation: build-name derivation, the `SOURCE_REPO` metadata match, the longest-prefix fallback, the unmapped-build set and the status write-back. Then the artifact coordinator, which fetches missing artifacts and attributes vulnerability findings to repositories, and the deployed-artifact processor, which attaches those artifacts to each repository.
- **State objects.** `DeployedArtifact` and `DependenciesVulnerabilities` (running totals, latest-artifact selection, mono/multi critical and high counts), `CodeIssues`, `Vulnerabilities`, the Sonar and JFrog CI statuses, `Repo`, `Product` with `DevOps`, and `ProductPillar`.
- **Queries and marking.** The AQL query text built by the JFrog client, and the Sonar processor's project-key prefix detection and repository marking.
- **Owners.** GitLab owner ranking (VP normalisation and a stable sort on VP frequency), GitHub reviewer batching and the top-three rule with `chkp-` stripping, and Bitbucket's top-three reviewers. It also covers the two HR lookups: the VP, director and group-manager fallback chains, and the e-mail lookup of a manager and VP.
- **Reporting.** The grouping and metrics of the app-status report, and the recursive serializer over an object graph.

The network, the filesystem, the environment and pandas do not appear as such. The HTTP exchanges of the JFrog, Sonar, GitLab, GitHub and Bitbucket clients become function parameters from the request to a parsed reply or an error. Cache files become maps from a key to present, absent or corrupt data. The HR table becomes a sequence of records whose cells are NaN or text. Environment and configuration values become token and organisation parameters. Python dictionaries and sets that are iterated in order become sequences (association lists), and objects that are updated in place become Dafny classes.

## Model

| member | source | states |
|---|---|---|
| ArtifactParser.ParseArtifactPath | src/services/processors/artifact_processors/artifact_parser.py:14-43 | a parsed key keeps the input key unchanged as its fourth component |
| ArtifactParser.ParseFailsIffNoSlash | src/services/processors/artifact_processors/artifact_parser.py:26-29 | parsing fails exactly when the key contains no `/` |
| ArtifactParser.ParsedPartsRebuildKey | src/services/processors/artifact_processors/artifact_parser.py:31-40 | repository and name hold no `/`; with one `/` the path is empty and the key is `repo/name`; with more the key is `repo/path/name` |
| ArtifactParser.ParseOfBuiltKey | src/services/processors/artifact_processors/artifact_parser.py:26-40 | parsing `repo/path/name` (repo and name without `/`) gives back exactly those three parts and the key |
| ArtifactParser.ParseOfTwoSegmentKey | src/services/processors/artifact_processors/artifact_parser.py:35-40 | parsing `repo/name` gives an empty path |
| ArtifactParser.IsLocalRepoIff | src/services/processors/artifact_processors/artifact_parser.py:46-67 | local exactly when the text after the last `-` contains `local`; never local without a `-` |
| ArtifactParser.MatchBuildNameToRepo | src/services/processors/artifact_processors/artifact_parser.py:70-90 | None exactly when no set holds the name; otherwise the first repository, in map order, whose set holds it |
| AqlCache.BuildNameOfValueSegment | src/services/processors/artifact_processors/aql_cache_manager.py:63-70 | a `build.name` value without `/` is the build name itself; with a `/` the build name is the segment between the first and the second `/` |
| AqlCache.ExtractPropsLastWins | src/services/processors/artifact_processors/aql_cache_manager.py:54-76 | number, timestamp and sha256 are the values of the last property with that key (None when there is none); the build name comes from the last non-empty `build.name` value |
| AqlCache.ExtractPropsWithoutBuildName | src/services/processors/artifact_processors/aql_cache_manager.py:54-70 | without a non-empty `build.name` property the build name stays None |
| AqlCache.FirstMatch | src/services/processors/artifact_processors/aql_cache_manager.py:51-53 | the index of the first result whose path and name are the requested ones, every earlier result differing |
| AqlCache.ExtractBuildInfo | src/services/processors/artifact_processors/aql_cache_manager.py:38-78 | None exactly when no result matches path and name; otherwise the properties of the first matching result, folded by the property loop |
| AqlCache.MergeKeepsExisting | src/services/processors/artifact_processors/aql_cache_manager.py:118-134 | the existing results stay unchanged and first, everything appended comes from the new results, and the keys afterwards are exactly the keys of both inputs |
| AqlCache.MergeUniqueKeys | src/services/processors/artifact_processors/aql_cache_manager.py:121-134 | merging into results with distinct `(path, name)` keys leaves distinct keys |
| AqlCache.MergeOfCoveredKeys | src/services/processors/artifact_processors/aql_cache_manager.py:129-134 | new results whose keys are all present already add nothing |
| AqlCache.MergeIdempotent | src/services/processors/artifact_processors/aql_cache_manager.py:118-134 | merging the same response a second time changes nothing |
| AqlCache.MergeOfDisjointKeys | src/services/processors/artifact_processors/aql_cache_manager.py:129-134 | new results with distinct keys absent before are all appended, in order |
| AqlCache.MergeAqlCaches | src/services/processors/artifact_processors/aql_cache_manager.py:107-145 | the existing results list is extended in place (a fresh list when the cache has none), its contents become the merge of old and new results, `added_count` is the growth and the range spans the whole list |
| AqlCache.RecordList.constructor | src/services/processors/artifact_processors/aql_cache_manager.py:118 | a results list starts with the given records |
| ArtifactCoordinatorModel.PairOf | src/services/processors/artifact_processors/artifact_coordinator.py:64-70 | a missing key yields a `(path, name)` pair exactly when it contains a `/` |
| ArtifactCoordinatorModel.CollectArtifactPairs | src/services/processors/artifact_processors/artifact_coordinator.py:63-70 | the loop builds, in order, the pairs of the keys that have one |
| ArtifactCoordinatorModel.ArtifactPairsSpec | src/services/processors/artifact_processors/artifact_coordinator.py:63-74 | there are no more pairs than keys, none exactly when no key has a `/`, and every pair comes from one of the keys |
| ArtifactCoordinatorModel.PlanSpec | src/services/processors/artifact_processors/artifact_coordinator.py:44-105 | without a cache file the full response is used and saved when it has results; with one, no pair or an empty targeted response skips the repository, an unusable cache gives way to an unsaved full response, and a usable one is merged (old results first, keys of both) and saved; data that is used always has results |
| ArtifactCoordinatorModel.ChooseData | src/services/processors/artifact_processors/artifact_coordinator.py:38-105 | returns the data the plan uses and the cache directory with what the plan saves |
| ArtifactCoordinatorModel.FirstKeyContaining | src/services/processors/artifact_processors/artifact_coordinator.py:143-147 | the index of the first finding whose key contains the artifact key, every earlier key not containing it |
| ArtifactCoordinatorModel.FindFindingKey | src/services/processors/artifact_processors/artifact_coordinator.py:143-147 | the search loop stops at that first finding |
| ArtifactCoordinatorModel.ArtifactStepSpec | src/services/processors/artifact_processors/artifact_coordinator.py:111-171 | one missing key: a key without `/` changes nothing; the unmapped set gains at most a build name the map lacks, and then no list changes; otherwise at most one artifact is appended, under the build's repository, keyed by a finding key that contains the path |
| ArtifactCoordinatorModel.ArtifactStepUnmapped | src/services/processors/artifact_processors/artifact_coordinator.py:125-140 | the unmapped set only grows, by at most one name that has no repository, and lists stay unchanged when it grows |
| ArtifactCoordinatorModel.ArtifactStepAppends | src/services/processors/artifact_processors/artifact_coordinator.py:142-167 | at most one artifact is appended, carrying the repository, the build name, the key as JFrog path and no timestamp |
| ArtifactCoordinatorModel.ArtifactsFoldGrows | src/services/processors/artifact_processors/artifact_coordinator.py:111-175 | over the loop the unmapped set never shrinks and every repository's list only grows at its end |
| ArtifactCoordinatorModel.ProcessArtifact | src/services/processors/artifact_processors/artifact_coordinator.py:113-171 | one pass of the loop computes exactly the step above |
| ArtifactCoordinatorModel.ProcessArtifacts | src/services/processors/artifact_processors/artifact_coordinator.py:111-175 | the loop over the missing keys folds the step over them in order |
| ArtifactCoordinatorModel.FetchAllGrows | src/services/processors/artifact_processors/artifact_coordinator.py:36-183 | over the whole call the unmapped set never shrinks, the lists only grow at their ends and no cache file disappears |
| ArtifactCoordinatorModel.SkippedRepoStep | src/services/processors/artifact_processors/artifact_coordinator.py:49-92 | a repository that is skipped in the first phase leaves artifacts and unmapped names alone |
| ArtifactCoordinatorModel.ArtifactCoordinator.constructor | src/services/processors/artifact_processors/artifact_coordinator.py:16-26 | the coordinator keeps its product name |
| ArtifactCoordinatorModel.ArtifactCoordinator.FetchMissingArtifacts | src/services/processors/artifact_processors/artifact_coordinator.py:28-183 | the final cache directory, unmapped set and lists are the fold over all the repositories, and the unmapped set and lists only grew |
| JfrogCiProcessorModel.BuildNameOf | src/services/processors/ci_processors/jfrog_ci_processor.py:141-146 | a listed build is considered exactly when its uri starts with `/`, has more after it and `lastStarted` is non-empty; its name is the uri without the `/` |
| JfrogCiProcessorModel.SafeTimestampSpec | src/services/processors/ci_processors/jfrog_ci_processor.py:166-167 | the sanitised timestamp keeps the length, turns exactly `:`, `.` and `+` into `-`, keeps every other character, and names the file `details_<ts>.json` |
| JfrogCiProcessorModel.SafeTimestampExample | src/services/processors/ci_processors/jfrog_ci_processor.py:166 | an ISO timestamp with colons, a dot and a plus sign becomes dashes only |
| JfrogCiProcessorModel.ResolveBuildInfoSpec | src/services/processors/ci_processors/jfrog_ci_processor.py:169-231 | a usable cache entry is taken as is; otherwise missing or empty `buildsNumbers` skips the build, the first run with the greatest start time is chosen, a run uri without `/` skips the build, and the details are fetched for the number after the `/` |
| JfrogCiProcessorModel.LongestIsUnique | src/services/processors/ci_processors/jfrog_ci_processor.py:286-294 | two longest candidates are the same name |
| JfrogCiProcessorModel.BestPrefixSpec | src/services/processors/ci_processors/jfrog_ci_processor.py:283-296 | the fallback finds nothing exactly when no repository name is a `-`-bounded prefix of the build name, and otherwise finds exactly the longest such name |
| JfrogCiProcessorModel.BestPrefixExample | src/services/processors/ci_processors/jfrog_ci_processor.py:286-294 | with repositories `svc` and `svc-api`, build `svc-api-worker` goes to `svc-api` and `svcx` to none |
| JfrogCiProcessorModel.LongestPrefixMatch | src/services/processors/ci_processors/jfrog_ci_processor.py:283-294 | the scan over the repository names, in any iteration order, returns the longest `-`-bounded prefix, or None |
| JfrogCiProcessorModel.MatchAllUnmapped | src/services/processors/ci_processors/jfrog_ci_processor.py:140-319 | the unmapped set grows by exactly the names of the resolved builds with no SOURCE_REPO and no fallback candidate |
| JfrogCiProcessorModel.StepUnmapped | src/services/processors/ci_processors/jfrog_ci_processor.py:278-319 | one build adds its name to the unmapped set exactly when it is resolved, has no SOURCE_REPO and no candidate |
| JfrogCiProcessorModel.StepWithSourceRepo | src/services/processors/ci_processors/jfrog_ci_processor.py:239-277 | a build with a SOURCE_REPO is appended to that repository's metadata matches when the name is a product repository, and to the unmatched list under that value otherwise |
| JfrogCiProcessorModel.StepWithoutSourceRepo | src/services/processors/ci_processors/jfrog_ci_processor.py:278-319 | a build without SOURCE_REPO joins the fallback list of its longest candidate with no branch, or otherwise goes to the unmapped set |
| JfrogCiProcessorModel.StepSkipped | src/services/processors/ci_processors/jfrog_ci_processor.py:144-227 | a build not considered, or resolved to no build info, changes nothing |
| JfrogCiProcessorModel.StepBuildWellFormed | src/services/processors/ci_processors/jfrog_ci_processor.py:239-319 | each step keeps the match dictionaries keyed by product repository names, with non-empty lists of their own kind and fallback entries under the longest candidate |
| JfrogCiProcessorModel.MatchAllWellFormed | src/services/processors/ci_processors/jfrog_ci_processor.py:140-321 | the whole build loop keeps that shape |
| JfrogCiProcessorModel.SetExistsCallError | src/models/ci_status.py:99 | a call to `set_exists(self, exists)` binds exactly when `exists` is given once, by position or by keyword; any other mix raises TypeError |
| JfrogCiProcessorModel.SetExistsAsWrittenRaises | src/services/processors/ci_processors/jfrog_ci_processor.py:379-385 | the call with one positional and four keyword arguments raises TypeError, which the handler of `process_ci_data` does not catch |
| JfrogCiProcessorModel.CombinedGet | src/services/processors/ci_processors/jfrog_ci_processor.py:324-331 | the combined dictionary has exactly the keys of both and under each the metadata matches followed by the fallback matches |
| JfrogCiProcessorModel.CombineMatches | src/services/processors/ci_processors/jfrog_ci_processor.py:324-331 | the combining loop yields that dictionary, with unique keys |
| JfrogCiProcessorModel.CombinedWellFormed | src/services/processors/ci_processors/jfrog_ci_processor.py:324-331 | the combined dictionary is keyed by repository names, holds non-empty lists, and every match is a metadata match or a fallback match under the build's longest candidate |
| JfrogCiProcessorModel.LatestMatchSpec | src/services/processors/ci_processors/jfrog_ci_processor.py:360 | the latest match is started no earlier than any other and later than every match before it |
| JfrogCiProcessorModel.BuildMappingMethods | src/services/processors/ci_processors/jfrog_ci_processor.py:366-376 | the loop builds the mapping-methods dictionary |
| JfrogCiProcessorModel.MappingMethodsKeys | src/services/processors/ci_processors/jfrog_ci_processor.py:363-376 | the mapping-methods dictionary has exactly the matched build names as keys |
| JfrogCiProcessorModel.MappingMethodsLast | src/services/processors/ci_processors/jfrog_ci_processor.py:367-376 | each name maps to the method of its last match |
| JfrogCiProcessorModel.MappingMethodsSpec | src/services/processors/ci_processors/jfrog_ci_processor.py:363-376 | keys are the matched names, each maps to the method of its last match, and the value is always `source_repo` or `longest_prefix` |
| JfrogCiProcessorModel.CollectRepoNames | src/services/processors/ci_processors/jfrog_ci_processor.py:135-138 | the product repository names are exactly the non-empty names of repositories with SCM info |
| JfrogCiProcessorModel.FoldMapSpec | src/services/processors/ci_processors/jfrog_ci_processor.py:387-389 | a build name is in the final map exactly when it was there before or a matched repository holds it; it then points at the last such repository, or keeps its old entry |
| JfrogCiProcessorModel.FoldMapKeys | src/services/processors/ci_processors/jfrog_ci_processor.py:387-389 | the keys of the final map are the old keys plus every matched build name |
| JfrogCiProcessorModel.FoldMapLast | src/services/processors/ci_processors/jfrog_ci_processor.py:387-389 | a name held by matched repositories points at the last of them |
| JfrogCiProcessorModel.FoldMapKept | src/services/processors/ci_processors/jfrog_ci_processor.py:387-389 | a name held by no matched repository keeps its old entry |
| JfrogCiProcessorModel.CountMatchedSpec | src/services/processors/ci_processors/jfrog_ci_processor.py:347-391 | the updated count equals the number of status updates and is at most the number of repositories; it is 0 when none is matched; each update belongs to a matched repository |
| JfrogCiProcessorModel.AllMatchesShape | src/services/processors/ci_processors/jfrog_ci_processor.py:117-331 | the combined matches of any build list are well formed |
| JfrogCiProcessorModel.JfrogCiProcessor.constructor | src/services/processors/ci_processors/jfrog_ci_processor.py:18-27 | a new processor has an empty build-name map and no unmapped names |
| JfrogCiProcessorModel.JfrogCiProcessor.MatchBuilds | src/services/processors/ci_processors/jfrog_ci_processor.py:140-321 | the three dictionaries and the unmapped set after the loop are the fold over the build list; the build-name map is untouched |
| JfrogCiProcessorModel.JfrogCiProcessor.UpdateRepo | src/services/processors/ci_processors/jfrog_ci_processor.py:348-391 | a missing CI status becomes a fresh default one; a matched repository gets existence, branch and job URL of its latest match and its build names are mapped to it; every field of the repository other than its CI status is kept, and nothing else changes |
| JfrogCiProcessorModel.JfrogCiProcessor.MapBuildNames | src/services/processors/ci_processors/jfrog_ci_processor.py:388-389 | each matched build name now maps to the repository, the rest of the map is kept |
| JfrogCiProcessorModel.JfrogCiProcessor.Step | src/services/processors/ci_processors/jfrog_ci_processor.py:348-391 | one iteration updates one repository's CI status and leaves every other repository's status, and every other field, as it was |
| JfrogCiProcessorModel.JfrogCiProcessor.UpdateRepoStatuses | src/services/processors/ci_processors/jfrog_ci_processor.py:346-398 | the count, the updates and the build-name map follow the repositories in order; every repository ends with a CI status, updated when matched and kept otherwise, and keeps every other field (`NonCiKept`) |
| JfrogCiProcessorModel.JfrogCiProcessor.UpdateEach | src/services/processors/ci_processors/jfrog_ci_processor.py:347-391 | the status loop, stated against the statuses as they were before it |
| JfrogCiProcessorModel.JfrogCiProcessor.MatchRepoBuilds | src/services/processors/ci_processors/jfrog_ci_processor.py:117-331 | the combined matches of the build list, well formed, with the unmapped set extended |
| JfrogCiProcessorModel.JfrogCiProcessor.LoadMetadataBased | src/services/processors/ci_processors/jfrog_ci_processor.py:78-409 | the answer carries the count, the repository total, the build-name map and the unmapped names as the folds define them; only CI statuses change |
| JfrogCiProcessorModel.JfrogCiProcessor.ProcessCiData | src/services/processors/ci_processors/jfrog_ci_processor.py:29-76 | with no project or no token the answer counts nothing and no repository, JFrog status or processor field changes; otherwise it is the metadata-based answer and each repository's JFrog status is its status before, updated by its matches; only CI statuses ever change |
| CiStatus.SonarCIStatus.constructor | src/models/ci_status.py:17-29 | the three fields take the given values |
| CiStatus.SonarCIStatus.SetExists | src/models/ci_status.py:42-47 | the flag is always set; the project key is replaced only by a non-empty key; the status is configured afterwards exactly when it exists and has a key |
| CiStatus.SonarPredicatesNest | src/models/ci_status.py:34-40 | scanning-active implies configured, configured implies existing, and a default status is neither |
| CiStatus.JfrogCIStatus.constructor | src/models/ci_status.py:65-82 | the fields take the given values and an absent artifact list becomes empty |
| CiStatus.JfrogCIStatus.SetExists | src/models/ci_status.py:99-102 | only the existence flag changes |
| CiStatus.JfrogCIStatus.SetBuildMatch | src/services/processors/ci_processors/jfrog_ci_processor.py:379-383 | the flag, branch and job URL are set; platform and artifacts are kept |
| CiStatus.JfrogCIStatus.IsConfigured | src/models/ci_status.py:87-89 | configured implies existing, and a status without a CI platform is never configured |
| CiStatus.JfrogCIStatus.GetArtifactCount | src/models/ci_status.py:91-97 | positive exactly when `has_artifacts` holds, and 0 exactly when the list is empty |
| CiStatus.ArtifactCountAgrees | src/models/ci_status.py:91-97 | `has_artifacts` holds exactly when the artifact count is positive |
| CiStatus.CIStatus.constructor | src/models/ci_status.py:120-130 | a given sub-status is kept, a missing one is a fresh default |
| CiStatus.CIStatusPredicates | src/models/ci_status.py:134-142 | full integration implies some integration; default statuses have neither |
| DeployedArtifactProcessor.CreatedArtifactProperties | src/services/processors/artifact_processors/deployed_artifact_processor.py:15-56 | a severity missing from the finding counts 0 and a present one keeps its value; key, repository, build name, path and update time pass through; the type is `unknown`; an artifact without a build timestamp is never a latest-artifact candidate |
| DeployedArtifactProcessor.AddArtifactsToRepo | src/services/processors/artifact_processors/deployed_artifact_processor.py:77-86 | missing vulnerability objects are created fresh, existing ones kept; the artifact list becomes the old list followed by the new artifacts; the counters are the sums over that list when artifacts were added or the data is new, and are kept otherwise; existing code issues are kept and new ones are empty; the repository's other fields are untouched |
| DeployedArtifactProcessor.AddAll | src/services/processors/artifact_processors/deployed_artifact_processor.py:85-86 | adding the artifacts one by one appends them in order; the counters become the sums over the list once one artifact is added, and stay as they were when none is |
| DeployedArtifactProcessor.Step | src/services/processors/artifact_processors/deployed_artifact_processor.py:71-88 | one iteration updates one repository and leaves every other repository as it was |
| DeployedArtifactProcessor.UpdateRepositoryVulnerabilities | src/services/processors/artifact_processors/deployed_artifact_processor.py:59-98 | every repository of the dictionary ends with dependency data whose list is its old list followed by its artifacts and whose counters are the sums over that list (kept when nothing was added to existing data); existing code issues are kept, missing ones are empty; owners, CI status and the other fields are unchanged; the count is the number of repositories |
| Vulns.ArtifactSeverityFacts | src/models/vulnerabilities.py:65-91 | with counts that are not negative, high-and-critical is part of the total and a critical finding is a finding; any finding means some count is positive; `is_latest` holds exactly for keys ending in `:latest` |
| Vulns.TotalsAppend | src/models/vulnerabilities.py:164-169 | the sums over two lists put together are the sums of the sums |
| Vulns.CriticalTotalPositiveIff | src/models/vulnerabilities.py:165 | the critical sum is positive exactly when some artifact has a critical finding |
| Vulns.TotalsNonNegative | src/models/vulnerabilities.py:164-169 | sums of counts that are not negative are not negative, counter by counter |
| Vulns.AnyTotalPositiveIff | src/models/vulnerabilities.py:191-193 | with counts that are not negative, the sum of all five sums is positive exactly when some artifact has a finding |
| Vulns.ArtifactsOfRepo | src/models/vulnerabilities.py:175-177 | the artifacts of one repository name, each from the list and each with that name, and every such artifact is included |
| Vulns.NormalizeProperties | src/models/vulnerabilities.py:199-200 | normalising ignores case, is idempotent on non-empty results, and turns a whitespace-only name into the empty name |
| Vulns.Candidates | src/models/vulnerabilities.py:216 | the candidates are list artifacts whose normalised build name is the query's and that have a non-empty timestamp, and every such artifact is one |
| Vulns.FirstMaxIndex | src/models/vulnerabilities.py:231 | the index of the first maximal key, like Python's `max` |
| Text.ParseIntOfNatToString | src/models/vulnerabilities.py:231 | `int()` of a number's decimal text gives the number back |
| Text.ParseIntSeparators | src/models/vulnerabilities.py:231 | for every text of digits and `_`: `int()` succeeds exactly when the `_` separate digit groups, with the value of the digits alone, and fails on a leading, trailing or doubled `_` |
| Vulns.LatestArtifactSpec | src/models/vulnerabilities.py:202-233 | no candidates gives None; a timestamp `int()` rejects raises ValueError; otherwise the first candidate with the largest integer timestamp |
| Vulns.LatestIsCandidate | src/models/vulnerabilities.py:216-233 | the latest artifact is one of the artifacts and a candidate for the build name |
| Vulns.LatestByBuildKeys | src/models/vulnerabilities.py:235-242 | every key of the latest-by-build dictionary is a queried name |
| Vulns.MultiSumIsPerNameSum | src/models/vulnerabilities.py:266-268 | over distinct names, the multi sum of the dictionary's values equals the per-name sum of latest counts, and one fails exactly when the other does |
| Vulns.GetCount | src/models/vulnerabilities.py:244-300 | no matched names or an unknown type gives 0; mono fails exactly when the first name's latest lookup fails |
| Vulns.MonoAndMultiAgreeOnOneName | src/models/vulnerabilities.py:260-297 | with one matched name the mono and multi policies give the same answer |
| Vulns.MultiCountIsPerNameSum | src/models/vulnerabilities.py:265-297 | the multi count is the sum over the names of their latest artifact's count, or 0 |
| Vulns.PerNameSumError | src/models/vulnerabilities.py:231 | the only error the per-name sum produces is ValueError |
| Vulns.LatestByBuildError | src/models/vulnerabilities.py:231-241 | the only error of the latest-by-build loop is ValueError |
| Vulns.DependenciesVulnerabilities.constructor | src/models/vulnerabilities.py:118-141 | given counters stand when no artifacts are given; given artifacts decide the counters |
| Vulns.DependenciesVulnerabilities.UpdateCountersFromArtifacts | src/models/vulnerabilities.py:156-169 | the artifacts are kept and every counter becomes its sum over them (zeros for none) |
| Vulns.DependenciesVulnerabilities.AddArtifact | src/models/vulnerabilities.py:146-150 | the artifact goes last, the counters are the sums over the new list, and counters that were sums grow by the artifact's counts |
| Vulns.DepsCriticalIff | src/models/vulnerabilities.py:187-189 | when the counters are the sums, the critical flag holds exactly when some artifact has a critical finding |
| Vulns.DependenciesVulnerabilities.GetHighAndCriticalCount | src/models/vulnerabilities.py:183-185 | with the counters as sums, the critical and high sums added; on counts that are not negative, between 0 and the total |
| Vulns.DependenciesVulnerabilities.HasCriticalVulnerabilities | src/models/vulnerabilities.py:187-189 | with the counters as sums of counts that are not negative, holds exactly when some artifact has a critical finding |
| Vulns.DependenciesVulnerabilities.HasAnyVulnerabilities | src/models/vulnerabilities.py:191-193 | with the counters as sums of counts that are not negative, holds exactly when some artifact has any finding |
| Vulns.DependenciesVulnerabilities.GetArtifactsByRepoName | src/models/vulnerabilities.py:175-177 | only stored artifacts of that repository, and every one of them |
| Vulns.DependenciesVulnerabilities.GetCriticalCount | src/models/vulnerabilities.py:244-271 | 0 without names or for an unknown type; `mono` reads the first name's latest artifact (0 without one, ValueError on a bad timestamp); `multi` over distinct names is the sum of each name's latest critical count |
| Vulns.DependenciesVulnerabilities.GetHighCount | src/models/vulnerabilities.py:273-300 | the same three rules on the high counts |
| Vulns.SumOverTypesPut | src/models/vulnerabilities.py:338-346 | replacing a type's counts moves a sum over types by the new figure minus the old one |
| Vulns.TypeFigureAtMostSum | src/models/vulnerabilities.py:357-379 | with per-type figures that are not negative, a present type's figure is between 0 and the sum over all types |
| Vulns.TypeFiguresAtMostSums | src/models/vulnerabilities.py:357-379 | on counts that are not negative, one type's total and critical figures lie between 0 and the totals over all types |
| Vulns.CodeIssues.constructor | src/models/vulnerabilities.py:319-333 | an absent dictionary becomes empty; the secrets count is kept |
| Vulns.CodeIssues.AddIssueType | src/models/vulnerabilities.py:338-347 | the type's counts are replaced, every other type is kept, secrets unchanged |
| Vulns.CodeIssues.GetIssueTypes | src/models/vulnerabilities.py:349-351 | one type per entry in insertion order, and a type is listed exactly when it is present |
| Vulns.CodeIssues.GetCountsForType | src/models/vulnerabilities.py:353-355 | the stored counts of a present type, and an empty dictionary for an absent one |
| Vulns.CodeIssues.GetTotalCountForType | src/models/vulnerabilities.py:357-360 | 0 for an absent type; on counts that are not negative, at most the total over all types |
| Vulns.CodeIssues.GetCriticalCountForType | src/models/vulnerabilities.py:362-365 | 0 for an absent type; on counts that are not negative, at most the CRITICAL-plus-BLOCKER total over all types |
| Vulns.CodeIssues.GetTotalCount | src/models/vulnerabilities.py:367-372 | the sum of all counts over all types |
| Vulns.CodeIssues.GetCriticalCount | src/models/vulnerabilities.py:374-379 | the sum of CRITICAL plus BLOCKER over all types |
| Vulns.CodeIssues.HasIssues | src/models/vulnerabilities.py:398-400 | holds exactly when the total over all types is positive |
| Vulns.CodeIssues.HasCriticalIssues | src/models/vulnerabilities.py:402-404 | holds exactly when the critical total is positive |
| Vulns.CodeIssues.HasVulnerabilities | src/models/vulnerabilities.py:406-408 | false without a VULNERABILITY entry, however many other issues there are; on counts that are not negative, true implies some issue |
| Vulns.CodeIssues.HasCriticalVulnerabilities | src/models/vulnerabilities.py:410-412 | false without a VULNERABILITY entry; on counts that are not negative, true implies some critical issue |
| Vulns.BackwardCompatibleCounts | src/models/vulnerabilities.py:427-449 | the backward-compatible figures read the VULNERABILITY type: critical is CRITICAL plus BLOCKER, high MAJOR, medium MINOR, low INFO |
| Vulns.BackwardCompatibleCountsAbsent | src/models/vulnerabilities.py:381-449 | without a VULNERABILITY entry every backward-compatible figure is 0 |
| Vulns.AddIssueTypeTotals | src/models/vulnerabilities.py:338-379 | replacing a type's counts moves the grand and critical totals by the difference for that type |
| Vulns.Vulnerabilities.constructor | src/models/vulnerabilities.py:465-475 | given parts are kept, missing parts become fresh empty objects |
| Vulns.Vulnerabilities.GetTotalVulnerabilityCount | src/models/vulnerabilities.py:485-488 | every code issue plus every dependency finding |
| Vulns.Vulnerabilities.GetCriticalVulnerabilityCount | src/models/vulnerabilities.py:490-493 | without a VULNERABILITY entry it is the dependency critical count alone; on counts that are not negative, between 0 and the critical code total plus the critical artifact sum |
| Vulns.Vulnerabilities.HasCriticalVulnerabilities | src/models/vulnerabilities.py:495-498 | on counts that are not negative, holds exactly when the critical count is positive |
| Vulns.Vulnerabilities.HasAnyVulnerabilities | src/models/vulnerabilities.py:500-503 | any code issue or any dependency finding |
| Vulns.CriticalFlagAgreesWithCount | src/models/vulnerabilities.py:490-498 | with counts that are not negative, the critical flag agrees with the critical count being positive |
| JfrogClient.StripTrailingSlashes | src/services/jfrog_client.py:24 | the base URL is the given one with every trailing `/` removed and no other change |
| JfrogClient.BaseUrl | src/services/jfrog_client.py:24 | a non-empty given URL wins over the environment's; the result is that URL with only trailing `/` removed and does not end in `/` |
| JfrogClient.QueryAqlArtifacts | src/services/jfrog_client.py:195-232 | the full-repository query naming the repository verbatim is posted; a 200 reply with a JSON body gives that body, a failed request or any other reply gives `{}` |
| JfrogClient.FullQueryDeterminesRepo | src/services/jfrog_client.py:206 | the full-repository query text determines the repository name |
| JfrogClient.Clauses | src/services/jfrog_client.py:255-257 | one `$or` condition per pair, in order |
| JfrogClient.ClauseHasPathAndName | src/services/jfrog_client.py:257 | a condition holds its path and its name verbatim |
| JfrogClient.SpecificQueryHasEveryClause | src/services/jfrog_client.py:255-262 | the targeted query contains every pair's condition and the repository name |
| JfrogClient.SpecificQueryHasEveryPathAndName | src/services/jfrog_client.py:255-262 | paths and names appear verbatim, without escaping, in the targeted query |
| JfrogClient.SpecificQueryOfOnePair | src/services/jfrog_client.py:259-262 | one pair gives one condition with no separator |
| JfrogClient.QueryAqlSpecificArtifacts | src/services/jfrog_client.py:234-290 | with no pairs nothing is posted and the answer is `{}`; otherwise the targeted query is posted and a 200 reply with a parsed body is the answer, anything else `{}` |
| SonarCiProcessorModel.CollectProjectKeys | src/services/ci_processors/sonar_ci_processor.py:52-59 | the collected keys are exactly the truthy `project_key` values, in order |
| SonarCiProcessorModel.ProjectKeysSpec | src/services/ci_processors/sonar_ci_processor.py:56-66 | a key is collected exactly when some project gives it and it is non-empty; none are collected exactly when no project gives one; the first key is the first given one |
| SonarCiProcessorModel.DetectPrefix | src/services/ci_processors/sonar_ci_processor.py:66-72 | there is no prefix exactly when the first key has no `-`; otherwise the prefix is the first key's text up to and including its first `-` |
| SonarCiProcessorModel.PrefixOfKey | src/services/ci_processors/sonar_ci_processor.py:65-68 | a key `text-rest` with no `-` in `text` gives the prefix `text-` |
| SonarCiProcessorModel.CollectSonarNames | src/services/ci_processors/sonar_ci_processor.py:75-79 | the name set is the keys' non-empty remainders after the prefix |
| SonarCiProcessorModel.SonarNamesSpec | src/services/ci_processors/sonar_ci_processor.py:75-79 | a name is in the set exactly when it is non-empty and the prefix followed by it is a project key |
| SonarCiProcessorModel.CountMarkedSpec | src/services/ci_processors/sonar_ci_processor.py:85-98 | the updated count is at most the number of repositories, zero exactly when none is listed and full exactly when all are |
| SonarCiProcessorModel.MarkedIsConfigured | src/services/ci_processors/sonar_ci_processor.py:92-97 | a listed repository ends with the Sonar integration present under the prefix plus its name, which is one of the project keys, and its main-branch flag kept |
| SonarCiProcessorModel.SonarCiProcessor.constructor | src/services/ci_processors/sonar_ci_processor.py:14-24 | the processor keeps the product name and the organisation id |
| SonarCiProcessorModel.SonarCiProcessor.MarkRepo | src/services/ci_processors/sonar_ci_processor.py:86-98 | the repository ends with a CI status (a new one when it had none); it is marked under the full key exactly when its name is listed; its other fields are kept |
| SonarCiProcessorModel.SonarCiProcessor.Step | src/services/ci_processors/sonar_ci_processor.py:86-100 | one loop iteration handles its repository's CI status and leaves every other repository's state, and every other field, as it was |
| SonarCiProcessorModel.SonarCiProcessor.MarkRepos | src/services/ci_processors/sonar_ci_processor.py:85-100 | every repository ends with a CI status, listed ones are marked and the rest keep their Sonar fields; fields other than the CI status are kept; the count is the number of listed repositories |
| SonarCiProcessorModel.SonarCiProcessor.ProcessCiData | src/services/ci_processors/sonar_ci_processor.py:27-109 | a failed or empty load, no key or a first key without `-` changes nothing and reports zero updates; otherwise every repository is marked against the detected prefix; only CI statuses ever change; the total is always the number of repositories |
| RepoModel.NormalizeIso | src/models/repo.py:92-93 | text ending in `Z` has that `Z` replaced by `+00:00`; other text is kept |
| RepoModel.ParseDatetimeSpec | src/models/repo.py:86-97 | missing or empty text gives no date; other text reaches the ISO parser with a trailing `Z` turned into `+00:00` |
| RepoModel.ScmInfoFromJsonDefaults | src/models/repo.py:64-72 | an empty object gives empty names, branch `main`, public and no dates; `github_id` wins over `id`, which is stored as its text |
| RepoModel.Repo.constructor | src/models/repo.py:25-45 | the repository keeps its details, product and production flag, has the given owners or none, and has no CI, CD, vulnerability or enforcement status |
| RepoModel.Repo.FromJson | src/models/repo.py:49-83 | a new repository with the details read from the object, no owners, not production, no statuses |
| RepoModel.Repo.UpdateCiStatus | src/models/repo.py:100-103 | the CI status is replaced, so `has_ci_status` holds, and nothing else changes |
| RepoModel.Repo.UpdateVulnerabilities | src/models/repo.py:105-108 | the vulnerabilities are replaced, so `has_vulnerabilities` holds, and nothing else changes |
| RepoModel.Repo.UpdateCdStatus | src/models/repo.py:110-113 | the CD status is replaced and nothing else changes |
| RepoModel.Repo.UpdateEnforcementStatus | src/models/repo.py:115-118 | the enforcement status is replaced and nothing else changes |
| RepoModel.RepoAccessors | src/models/repo.py:121-143 | the accessors return the name, full name, id, default branch and privacy of the details the repository holds |
| RepoModel.RepoNames | src/models/repo.py:92 | one entry per repository, its name when it has a non-empty one |
| ProductModel.NewDevOps | src/models/product.py:17-30 | a contact is made exactly when the email holds `@`; otherwise ValueError |
| ProductModel.Product.constructor | src/models/product.py:46-58 | the product keeps its name, contact and description, has no repositories (count 0), and has a contact exactly when one was given |
| ProductModel.Product.SetDevops | src/models/product.py:62-74 | the contact is replaced, the product now has one, and the repositories and description are kept |
| ProductModel.Product.AddRepo | src/models/product.py:76-88 | the repository is appended at the end, so the count grows by one, and nothing else changes |
| ProductModel.Product.RemoveRepo | src/models/product.py:90-102 | removes nothing (its `modifies` is empty) and answers False |
| ProductModel.Product.Str | src/models/product.py:122-124 | for every product: the text starts with the name, ends with the contact's name or `No DevOps assigned`, and `int()` of what lies between gives the repository count |
| ProductModel.Product.Repr | src/models/product.py:126-127 | for every product: the name and the description (`None` when absent) come first, the contact as `DevOps(name=..., email=...)` or `None` last, and the repository count reads back between them |
| Text.NumberReadsBack | src/models/product.py:124 | a number printed between a head and a tail reads back with `int()` from between them |
| PillarModel.Names | src/models/product_pillar.py:44 | one name per product, in order |
| PillarModel.ProductPillar.constructor | src/models/product_pillar.py:19-29 | the pillar keeps its name and description and has no products |
| PillarModel.ProductPillar.AddProduct | src/models/product_pillar.py:33-49 | a product whose name is present leaves the list as it was; any other is appended; distinct names stay distinct |
| PillarModel.ProductPillar.GetProduct | src/models/product_pillar.py:51-64 | null exactly when no product has the name; otherwise the first product with it |
| PillarModel.ProductPillar.Str | src/models/product_pillar.py:66-67 | for every pillar: the name, then the product count, which reads back with `int()`, and no description |
| PillarModel.ProductPillar.Repr | src/models/product_pillar.py:69-70 | for every pillar: the name, the description (`None` when absent), then the product count, which reads back |
| AppStatusReportModel.MembersSpec | reporting/app_status_report.py:51-60 | a manager row belongs to a group exactly when it is not skipped and carries that group's VP, director and product |
| AppStatusReportModel.AddRowGroup | reporting/app_status_report.py:60 | appending a row to a group adds it at the end of that group and leaves every other group as it was |
| AppStatusReportModel.AddRowWellFormed | reporting/app_status_report.py:49-60 | appending keeps every level of the nested dictionary free of duplicate keys |
| AppStatusReportModel.GroupedSpec | reporting/app_status_report.py:42-62 | every level of the grouping has distinct keys, and a group exists exactly when some kept row belongs to it, holding exactly those rows in order |
| AppStatusReportModel.GroupByHierarchy | reporting/app_status_report.py:42-62 | the loop builds the grouping of the rows |
| AppStatusReportModel.SumOfIntegrated | reporting/app_status_report.py:127-136 | summing over the integrated rows is summing over all rows with the others counted as zero |
| AppStatusReportModel.IntegratedSpec | reporting/app_status_report.py:116-117 | the integrated rows are exactly the rows whose flag is `True`, in order; there are none exactly when no row's flag is `True` |
| AppStatusReportModel.ToolMetricsSpec | reporting/app_status_report.py:104-182 | the counts are `N/A` exactly when no repository of the group is integrated; otherwise they are the integer values summed over the integrated repositories |
| AppStatusReportModel.AccumulateCounts | reporting/app_status_report.py:127-136 | the `+=` loop ends with both sums |
| AppStatusReportModel.CalculateSonarMetrics | reporting/app_status_report.py:104-142 | the Sonar figures are the integrated count, secrets and critical code vulnerabilities of the group |
| AppStatusReportModel.CalculateJfrogMetrics | reporting/app_status_report.py:144-182 | the JFrog figures are the integrated count, critical and high dependency vulnerabilities of the group |
| AppStatusReportModel.CalculateMetricsForGroup | reporting/app_status_report.py:64-102 | the row names its group, with the director as AM, the SCM of its first repository, `TBD` twice and the group size |
| AppStatusReportModel.Flat1 | reporting/app_status_report.py:36-38 | one entry per product of a director, in order |
| AppStatusReportModel.RowsOf | reporting/app_status_report.py:37-38 | one sheet row per group, holding that group's figures |
| AppStatusReportModel.RowsOfAppend | reporting/app_status_report.py:34-38 | the rows of two lists of groups are the rows of each, concatenated |
| AppStatusReportModel.Flat1Spec | reporting/app_status_report.py:36-38 | a director's flattened groups have distinct triples and are exactly that director's products |
| AppStatusReportModel.Flat2Spec | reporting/app_status_report.py:35-38 | a VP's flattened groups have distinct triples and are exactly the groups under that VP |
| AppStatusReportModel.Flat2Keys | reporting/app_status_report.py:35-38 | a triple among a VP's flattened groups carries that VP and one of its directors |
| AppStatusReportModel.Flat3Keys | reporting/app_status_report.py:34-38 | a triple among the flattened groups carries one of the VPs |
| AppStatusReportModel.Flat3Spec | reporting/app_status_report.py:34-38 | the flattened hierarchy has distinct triples and looks up to the same group as the hierarchy |
| AppStatusReportModel.AppStatusSpec | reporting/app_status_report.py:23-40 | the sheet has exactly one row per triple of a kept manager row, no triple twice, and each row holds the figures of exactly that triple's rows |
| AppStatusReportModel.AppStatusDistinct | reporting/app_status_report.py:23-40 | no triple has two rows |
| AppStatusReportModel.AppStatusFigures | reporting/app_status_report.py:23-40 | each row holds the figures of its own triple's manager rows, of which there is at least one |
| AppStatusReportModel.AppStatusCovers | reporting/app_status_report.py:23-62 | every kept manager row's triple has a row |
| AppStatusReportModel.AppStatusReport.constructor | reporting/app_status_report.py:14-21 | the report keeps the manager data |
| AppStatusReportModel.AppStatusReport.GenerateAppStatusData | reporting/app_status_report.py:23-40 | the loop over VPs yields the sheet of the grouped manager data |
| AppStatusReportModel.AppStatusReport.RowsForVp | reporting/app_status_report.py:35-38 | the loop over one VP's directors yields the rows of that VP's groups |
| AppStatusReportModel.AppStatusReport.RowsForDirector | reporting/app_status_report.py:36-38 | the loop over one director's products yields one row per product, in order |
| GitLabModel.EnrichSpec | src/services/processors/repository_processors/gitlab_repo_processor.py:91-108 | an enriched record has the twelve keys, with the member's username, access level and HR VP |
| GitLabModel.Enriched | src/services/processors/repository_processors/gitlab_repo_processor.py:90-108 | one enriched record per GitLab owner, in GitLab's order |
| GitLabModel.EnrichOwners | src/services/processors/repository_processors/gitlab_repo_processor.py:90-108 | the loop builds the enriched records |
| GitLabModel.NormalizeVpSpec | src/services/processors/repository_processors/gitlab_repo_processor.py:116-121 | a VP is dropped exactly when it reads `unknown` after trimming and lower-casing; any other becomes a trimmed lower-case name |
| GitLabModel.NormalizeVpIgnoresCase | src/services/processors/repository_processors/gitlab_repo_processor.py:116-121 | VPs that differ only in case or surrounding whitespace normalise alike |
| GitLabModel.VpsOf | src/services/processors/repository_processors/gitlab_repo_processor.py:124 | the normalised VP of each owner, in order |
| GitLabModel.ValidVpsOccurrences | src/services/processors/repository_processors/gitlab_repo_processor.py:124 | a name occurs among the kept VPs as often as owners normalise to it |
| GitLabModel.CounterLookup | src/services/processors/repository_processors/gitlab_repo_processor.py:125-136 | the counter's entry for a VP, 0 when absent, is the number of owners grouped under it |
| GitLabModel.RankOfVp | src/services/processors/repository_processors/gitlab_repo_processor.py:130-136 | the key of an owner with a VP is minus the number of owners sharing it |
| GitLabModel.RankByApply | src/services/processors/repository_processors/gitlab_repo_processor.py:130-136 | an owner's key depends on its normalised VP and the counter alone |
| GitLabModel.RankCounts | src/services/processors/repository_processors/gitlab_repo_processor.py:130-136 | an owner without a VP gets the key that sorts last; one with a VP gets minus its VP's owner count |
| GitLabModel.OwnerOrder | src/services/processors/repository_processors/gitlab_repo_processor.py:139-140 | one original index per stored owner |
| GitLabModel.SortOwnersPermutation | src/services/processors/repository_processors/gitlab_repo_processor.py:139-140 | the stored owners are the enriched owners rearranged, each exactly once |
| GitLabModel.SortOwnersOrder | src/services/processors/repository_processors/gitlab_repo_processor.py:110-140 | owners without a VP all come last, and the number of owners sharing the VP never increases down the list |
| GitLabModel.SortOwnersStable | src/services/processors/repository_processors/gitlab_repo_processor.py:127-140 | owners that tie keep GitLab's order |
| GitLabModel.OwnersOfSpec | src/services/processors/repository_processors/gitlab_repo_processor.py:71-142 | a repository gets no owners exactly when it has no truthy project id or GitLab lists no owners; otherwise it gets the enriched owners, rearranged |
| GitLabModel.GitLabRepoProcessor.constructor | src/services/processors/repository_processors/gitlab_repo_processor.py:16-25 | the processor keeps its product and HR table and has no client yet |
| GitLabModel.GitLabRepoProcessor.InitializeClient | src/services/processors/repository_processors/gitlab_repo_processor.py:27-44 | a client is made exactly when the product's token is non-empty |
| GitLabModel.GitLabRepoProcessor.PopulateSingleRepoOwners | src/services/processors/repository_processors/gitlab_repo_processor.py:71-142 | the repository's owners become the ones its project id yields |
| GitLabModel.GitLabRepoProcessor.PopulateRepoOwners | src/services/processors/repository_processors/gitlab_repo_processor.py:46-69 | with no client and no token nothing changes and 0 is returned; otherwise every repository gets its owners and the count is the number of repositories |
| GitHubModel.PresentNames | src/services/processors/repository_processors/github_repo_processor.py:63-69 | at most one name per repository |
| GitHubModel.PresentNamesSpec | src/services/processors/repository_processors/github_repo_processor.py:63-72 | a name is collected exactly when some repository carries it; none are collected exactly when no repository has a name |
| GitHubModel.RepoMapSpec | src/services/processors/repository_processors/github_repo_processor.py:64-70 | the map holds exactly the names present, each mapped to the last repository carrying it |
| GitHubModel.CollectRepoNames | src/services/processors/repository_processors/github_repo_processor.py:62-70 | the loop builds both the name list and the name map |
| GitHubModel.BatchesCount | src/services/processors/repository_processors/github_repo_processor.py:77-83 | there are `(len + 29) // 30` batches of 1 to 30 names each, and together they are the names in order |
| GitHubModel.BatchesAt | src/services/processors/repository_processors/github_repo_processor.py:80-81 | batch `k` is the slice of the names starting at `30 * k` |
| GitHubModel.UpdateAllUnique | src/services/processors/repository_processors/github_repo_processor.py:78-89 | merging the batch answers keeps one entry per repository name |
| GitHubModel.UpdateAllHasKey | src/services/processors/repository_processors/github_repo_processor.py:78-89 | a name has reviewers after the merges exactly when it had them before or some batch answered for it |
| GitHubModel.UpdateAllGet | src/services/processors/repository_processors/github_repo_processor.py:88-89 | a name ends with the reviewers of the last batch that answered for it |
| GitHubModel.FetchReviewers | src/services/processors/repository_processors/github_repo_processor.py:76-89 | the batch loop yields the merged answers, one entry per name |
| GitHubModel.StripChkpSpec | src/services/processors/repository_processors/github_repo_processor.py:110-114 | a `chkp-` prefix is dropped, leaving the rest; any other username is kept |
| GitHubModel.ReviewerOwners | src/services/processors/repository_processors/github_repo_processor.py:108-129 | one owner record per top reviewer, in order |
| GitHubModel.EnrichReviewers | src/services/processors/repository_processors/github_repo_processor.py:108-129 | the loop builds the owner records of the top reviewers |
| GitHubModel.ReviewerOwnerFields | src/services/processors/repository_processors/github_repo_processor.py:116-118 | a record holds the username without `chkp-` and the review count |
| GitHubModel.TopOwnersSpec | src/services/processors/repository_processors/github_repo_processor.py:104-129 | at most three owners, fewer only when there are fewer distinct reviewers; each names a reviewer with its true count; counts never increase down the list; no reviewer left out reviewed more than one kept |
| GitHubModel.ProcessedFlags | src/services/processors/repository_processors/github_repo_processor.py:95-131 | an entry counts exactly when it names a mapped repository and has reviewers |
| GitHubModel.CountProcessedSpec | src/services/processors/repository_processors/github_repo_processor.py:95-131 | the processed count is the number of such entries, zero exactly when none qualifies |
| GitHubModel.ReachedOther | src/services/processors/repository_processors/github_repo_processor.py:96-102 | handling an entry leaves every repository it does not map to as it was |
| GitHubModel.OwnersAfterHit | src/services/processors/repository_processors/github_repo_processor.py:96-130 | handling an entry gives the repository it maps to the top reviewers of that entry |
| GitHubModel.OwnersAfterAll | src/services/processors/repository_processors/github_repo_processor.py:95-131 | after all entries each repository holds the owners `Assigned` describes |
| GitHubModel.RepoMapIndexed | src/services/processors/repository_processors/github_repo_processor.py:64-70 | each mapped repository sits at a position carrying that name, and a repository object always carries the same name |
| GitHubModel.AssignedAll | src/services/processors/repository_processors/github_repo_processor.py:95-131 | one owner list per repository, the one its entry in the answers gives it |
| GitHubModel.PopulatedOwners | src/services/processors/repository_processors/github_repo_processor.py:58-135 | without names or without answers every repository keeps its owners; otherwise each gets the owners its name's answer gives |
| GitHubModel.PopulatedStops | src/services/processors/repository_processors/github_repo_processor.py:72-93 | without names or answers nothing changes and 0 is returned |
| GitHubModel.PopulatedProceeds | src/services/processors/repository_processors/github_repo_processor.py:91-135 | with names and answers the outcome is that of the loop over the answers |
| GitHubModel.OwnerLists | src/services/processors/repository_processors/github_repo_processor.py:101-130 | the owners each repository holds |
| GitHubModel.GitHubRepoProcessor.constructor | src/services/processors/repository_processors/github_repo_processor.py:16-25 | the processor keeps its product and HR table and has no client yet |
| GitHubModel.GitHubRepoProcessor.InitializeClient | src/services/processors/repository_processors/github_repo_processor.py:27-45 | a client is made exactly when both the token and the organisation are non-empty |
| GitHubModel.GitHubRepoProcessor.AssignOwners | src/services/processors/repository_processors/github_repo_processor.py:95-131 | the loop over the answers counts the processed entries and leaves every repository with its assigned owners |
| GitHubModel.GitHubRepoProcessor.AssignEntry | src/services/processors/repository_processors/github_repo_processor.py:96-131 | one entry updates only the repository it maps to, and counts exactly when it has reviewers |
| GitHubModel.GitHubRepoProcessor.PopulateWithClient | src/services/processors/repository_processors/github_repo_processor.py:62-135 | after the client check, the count and owners are `PopulatedCount` and `PopulatedOwners` |
| GitHubModel.GitHubRepoProcessor.PopulateRepoOwners | src/services/processors/repository_processors/github_repo_processor.py:47-135 | without a client nothing changes and 0 is returned; with one, the outcome above |
| CounterModel.OccurrencesPositive | src/services/processors/repository_processors/github_repo_processor.py:105 | an element is counted at least once exactly when it is in the list |
| CounterModel.OccurrencesPositions | src/services/processors/repository_processors/github_repo_processor.py:105 | the count of an element is the number of positions holding it |
| CounterModel.DistinctMembers | src/services/processors/repository_processors/github_repo_processor.py:105 | the counter's keys are exactly the list's elements, each once |
| CounterModel.DistinctOrder | src/services/processors/repository_processors/github_repo_processor.py:105 | the counter's keys come in order of first appearance |
| CounterModel.TallyGet | src/services/processors/repository_processors/gitlab_repo_processor.py:125 | the counter holds an element exactly when it is in the list, with its number of occurrences |
| CounterModel.TallySpec | src/services/processors/repository_processors/gitlab_repo_processor.py:125 | the counter's keys are distinct and in order of first appearance, each with its true count |
| CounterModel.RankedEntries | src/services/processors/repository_processors/github_repo_processor.py:106 | the ranked entries are the counter's entries, each element once with its true count |
| CounterModel.RankedOrder | src/services/processors/repository_processors/github_repo_processor.py:106 | ranked counts never increase, and equal counts keep the order of first appearance |
| CounterModel.RankedCovers | src/services/processors/repository_processors/github_repo_processor.py:106 | every element of the list is ranked |
| CounterModel.MostCommonSpec | src/services/processors/repository_processors/github_repo_processor.py:106 | `most_common(n)` keeps `min(n, distinct)` entries, each an element with its true count, counts non-increasing, ties in first-appearance order, and no element left out occurs more often than one kept |
| CounterModel.MostCommonLeftOut | src/services/processors/repository_processors/github_repo_processor.py:106 | an element left out occurs no more often than any kept one |
| KeySort.TagDistinct | src/services/processors/repository_processors/gitlab_repo_processor.py:139 | enumerating gives every element a distinct key, and dropping the keys gives the list back |
| KeySort.InsertSpec | src/services/processors/repository_processors/gitlab_repo_processor.py:140 | inserting a new key into a sorted list keeps it sorted and adds exactly that element |
| KeySort.SortSpec | src/services/processors/repository_processors/gitlab_repo_processor.py:140 | sorting distinct keys gives a sorted rearrangement of the same elements |
| KeySort.SortedUnique | src/services/processors/repository_processors/gitlab_repo_processor.py:140 | two sorted lists with the same elements are equal, so the order is fully determined by the keys |
| KeySort.SortTagSpec | src/services/processors/repository_processors/gitlab_repo_processor.py:139-140 | the sorted list holds every element once, under its own key and original position |
| BitbucketModel.SplitOnceSpec | src/services/repository_processors/bitbucket_repo_processor.py:75 | the split fails exactly when there is no `/`; otherwise the two parts joined by it give the text back and the first holds no `/` |
| BitbucketModel.SplitOnceJoin | src/services/repository_processors/bitbucket_repo_processor.py:75 | a key without `/` joined to any slug splits back into that key and slug |
| BitbucketModel.ParseFullNameAsWrittenRaises | src/services/repository_processors/bitbucket_repo_processor.py:74-79 | without `scm_info` the code as written raises AttributeError from its own handler, where the intended parse stores no owners; the case is latent, since `Repo` construction already fails without `scm_info` |
| BitbucketModel.ParseFullNameSpec | src/services/repository_processors/bitbucket_repo_processor.py:74-79 | with `scm_info` both parses agree; the intended one never raises and gives nothing exactly when the details are missing or the full name has no `/` |
| BitbucketModel.ReviewerOwners | src/services/repository_processors/bitbucket_repo_processor.py:90-106 | one owner record per top reviewer, in order |
| BitbucketModel.ReviewerOwnerFields | src/services/repository_processors/bitbucket_repo_processor.py:93-95 | a record holds the username and its review count |
| BitbucketModel.TopOwnersSpec | src/services/repository_processors/bitbucket_repo_processor.py:87-106 | at most three owners, fewer only when there are fewer distinct reviewers; each a reviewer with its true count; counts never increase down the list |
| BitbucketModel.TopOwnersDistinct | src/services/repository_processors/bitbucket_repo_processor.py:87-106 | no reviewer appears twice, and no reviewer left out reviewed more than one kept |
| BitbucketModel.TopOwnersFields | src/services/repository_processors/bitbucket_repo_processor.py:88-95 | owners follow `most_common(3)` entry by entry, with its names and counts |
| BitbucketModel.OwnersOfSpec | src/services/repository_processors/bitbucket_repo_processor.py:69-106 | a repository gets no owners exactly when its full name does not split or it had no reviewers; otherwise the top reviewers of its own project and slug, at most three |
| BitbucketModel.BitbucketRepoProcessor.constructor | src/services/repository_processors/bitbucket_repo_processor.py:16-25 | the processor keeps its product and HR table and has no client yet |
| BitbucketModel.BitbucketRepoProcessor.InitializeClient | src/services/repository_processors/bitbucket_repo_processor.py:27-44 | a client is made exactly when the product's token is non-empty |
| BitbucketModel.BitbucketRepoProcessor.PopulateSingleRepoOwners | src/services/repository_processors/bitbucket_repo_processor.py:69-106 | the owners are reset and the top reviewers appended one by one, ending with the owners the repository's full name yields |
| BitbucketModel.BitbucketRepoProcessor.PopulateRepoOwners | src/services/repository_processors/bitbucket_repo_processor.py:46-67 | with no client and no token nothing changes and 0 is returned; otherwise every repository gets its owners and the count is the number of repositories |
| HrdbModel.SafeStrSpec | src/services/hrdb_clients/hrdb_client.py:102-106 | `safe_str` gives `""` exactly on the cells `is_empty` rejects, and otherwise the trimmed text |
| HrdbModel.FirstNonEmptySpec | src/services/hrdb_clients/hrdb_client.py:17-77 | a chain gives `""` exactly when all its columns are empty; otherwise the trimmed value of the first non-empty column |
| HrdbModel.FallbackChains | src/services/hrdb_clients/hrdb_client.py:17-77 | VP follows `VP 2`, `VP 1`, `C Level`; director follows `Director`, `Sr. Manager (GM/CM)`; group manager follows `Sr. Manager (GM/CM)`, `Manager 2`, `Manager Name` |
| HrdbModel.VpFallbackOrder | src/services/hrdb_clients/hrdb_client.py:17-37 | each VP column is used only when the ones before it are empty; the VP is `""` exactly when all are; it is trimmed |
| HrdbModel.DirectorFallbackOrder | src/services/hrdb_clients/hrdb_client.py:39-55 | the senior manager is used only when the director is empty; the result is `""` exactly when both are; it is trimmed |
| HrdbModel.GroupManagerFallbackOrder | src/services/hrdb_clients/hrdb_client.py:57-77 | each manager column is used only when the ones before it are empty; the result is `""` exactly when all are; it is trimmed |
| HrdbModel.LowerColumn | src/services/hrdb_clients/hrdb_client.py:12 | lowering a column changes that column's cell in each row holding it and nothing else |
| HrdbModel.FirstRow | src/services/hrdb_clients/hrdb_client.py:97-99 | the first row whose column holds the value, or none |
| HrdbModel.LoadedColumn | src/services/hrdb_clients/hrdb_client.py:12-97 | after loading, a row matches a username exactly when its raw cell lower-cases to it |
| HrdbModel.GetUserDataSpec | src/services/hrdb_clients/hrdb_client.py:79-134 | with a matching row, the fields of the first; with none, ten empty fields; every field is trimmed and the username's case does not matter |
| HrdbModel.GetUserDataRows | src/services/hrdb_clients/hrdb_client.py:96-134 | the record read is the first row of the lower-cased username, or none |
| HrdbModel.GetUserDataTrimmed | src/services/hrdb_clients/hrdb_client.py:102-120 | every field handed out is trimmed |
| HrdbModel.LoadFrame | src/services/hrdb_clients/hrdb_client.py:8-15 | the client holds the empty frame exactly when the file cannot be read or lacks the key column; otherwise the rows with the key column lowercased |
| HrdbModel.GetUserDataAfterLoad | src/services/hrdb_clients/hrdb_client.py:8-99 | after a failed load every lookup raises KeyError, and only then; after a good load the lookup is the first-row rule on the lowercased table, with trimmed fields |
| HrdbModel.UserOfTrimmed | src/services/hrdb_clients/hrdb_client.py:109-120 | every field read from a record is trimmed |
| HrdbModel.OwnerRecordSpec | src/services/hrdb_clients/hrdb_client.py:109-120 | an owner record has twelve keys: its name, its own field, then the HR values under their keys |
| HrdbEmailModel.EmailForSpec | src/services/hrdb_client.py:26 | the address is the lower-cased username followed by `@checkpoint.com`, and is itself lower case |
| HrdbEmailModel.LoadedEmail | src/services/hrdb_client.py:11-27 | a loaded row matches exactly when its raw address has the same length and agrees with the company address ignoring case |
| HrdbEmailModel.GetManagerVpSpec | src/services/hrdb_client.py:17-38 | with a row holding the user's address, the raw senior manager and VP cells of the first; with none, two empty values; addresses outside the domain never match; case does not matter |
| HrdbEmailModel.GetManagerVpAfterLoad | src/services/hrdb_client.py:8-27 | after a failed load (unreadable file or no `EMAIL` column) every lookup raises KeyError, and only then; after a good load the lookup runs on the table with `EMAIL` lowercased |
| Serialization.StrKeys | src/utils/serialization.py:35 | each dictionary key is replaced by its `str()`, values kept, in order |
| Serialization.Public | src/utils/serialization.py:44-47 | the attributes kept are exactly those whose name does not start with `_` |
| Serialization.SlotValues | src/utils/serialization.py:51-53 | one entry per slot, an unset slot read as None |
| Serialization.Serialize | src/utils/serialization.py:5-57 | the visited set only grows, and only by objects of the graph; a primitive comes back unchanged with the set untouched; an object walked is recorded as visited |
| Serialization.Items | src/utils/serialization.py:31 | one serialized value per list item |
| Serialization.Entries | src/utils/serialization.py:35-53 | one serialized value per entry |
| Serialization.EntriesKeys | src/utils/serialization.py:35-53 | serializing entries keeps their keys in order |
| Serialization.VisitedIsCycle | src/utils/serialization.py:24-26 | an object already visited becomes `<cycle: TYPE>` and leaves the set as it was |
| Serialization.ItemsPrefix | src/utils/serialization.py:31 | serializing a prefix of a list gives a prefix of the result and a smaller visited set |
| Serialization.ItemAt | src/utils/serialization.py:31 | each item is serialized with the visited set left by the items before it |
| Serialization.ItemsPrims | src/utils/serialization.py:17-31 | primitive items come back unchanged |
| Serialization.RepeatIsCycle | src/utils/serialization.py:24-31 | an object listed twice is walked the first time and written as a cycle marker every later time, even with no cycle |
| Serialization.SelfListIsCycle | src/utils/serialization.py:24-31 | a list holding itself serializes as a list holding `<cycle: list>` |
| Serialization.SharedIsCycle | src/utils/serialization.py:24-31 | a list holding one object twice gets the cycle marker in its second place |
| Serialization.CollectionIsList | src/utils/serialization.py:29-31 | a list, tuple or set becomes a list of as many values, the object recorded first |
| Serialization.ResultShape | src/utils/serialization.py:29-57 | a collection becomes a list, a dictionary and any object with `__dict__` or `__slots__` a dictionary, anything else its `str()` |
| Serialization.EntriesPrims | src/utils/serialization.py:17-53 | primitive values come back unchanged |
| Serialization.DictOf | src/utils/serialization.py:35 | building the dictionary keeps one entry per distinct key, and a key is present exactly when some entry has it |
| Serialization.DictKeys | src/utils/serialization.py:34-35 | a dictionary gets one entry per distinct `str()` of its keys |
| Serialization.InstanceKeys | src/utils/serialization.py:42-48 | an object with `__dict__` becomes a dictionary of exactly its attributes not starting with `_` |
| Serialization.InstanceDict | src/utils/serialization.py:42-48 | an unvisited object with `__dict__` is written as the dictionary of its public attributes, walked in order |
| Serialization.PublicNames | src/utils/serialization.py:44-46 | the names kept are exactly the attribute names that do not start with `_` |
| Serialization.SlottedKeys | src/utils/serialization.py:49-54 | an object with `__slots__` gets exactly its slot names as keys, an unset slot written as None |
| Serialization.SlottedDict | src/utils/serialization.py:49-54 | an unvisited object with `__slots__` is written as the dictionary of its slots, walked in order |
| Serialization.Serializer.constructor | src/utils/serialization.py:20-21 | the walk starts with an empty visited set |
| Serialization.Serializer.SerializeValue | src/utils/serialization.py:5-57 | the imperative walk gives the value and visited set `Serialize` describes |
| Serialization.Serializer.SerializeItems | src/utils/serialization.py:31 | the list comprehension gives the values and visited set `Items` describes |
| Serialization.Serializer.SerializeEntries | src/utils/serialization.py:35-53 | the dictionary loops give the values and visited set `Entries` describes |
| Serialization.SerializeRecursive | src/utils/serialization.py:5-57 | `serialize_recursive(obj)` gives `Serialized` of the object |

## Left out

- Logging, HTTP headers, timeouts and `test_connection` of every client: they are I/O with no effect on the data.
- The HTTP calls, pagination and retry loops of the clients: each is a parameter from the request to a parsed reply or an error.
- `fetch_all_project_builds`, build metadata and build details: they reach the JFrog processor as parameters (listing, metadata lookup, details cache and remote details).
- `load_aql_cache`, `save_aql_cache`, the build-list save, the details-cache write and `_clean_old_cache_files`: the cache is a map from key to present, missing or corrupt data. The model records which data would be saved, not the file operations or the mtime-based pruning.
- The progress and statistics counters of `_load_metadata_based` that only feed log lines.
- Floating point: the app-status row carries the integrated repository counts, not the `%.0f%%` percentage text.
- `AppStatusReport.export_to_excel` and the other report writers and command-line scripts: pandas, openpyxl and CSV output.
- Python set iteration order is unspecified; where the source iterates a set, the model iterates a sequence in a fixed order.
- Object identity in the serializer is modelled as node identifiers in a finite object graph, and `type(obj).__name__` as a label per node.
- The namedtuple branch of `serialize_recursive` (src/utils/serialization.py:38-39) is unreachable because tuples are handled first; the model has no separate case for it.
- The `ImportError` handlers around client imports: a client that cannot be created is an absent client parameter.
- The repository processors are given a loaded HR table; the KeyError that a failed load causes at their first HR lookup (see `HrdbModel.GetUserDataAfterLoad`) is not followed through them.
- The `.str.lower()` of the load step is applied to text cells only; a non-text key column, on which the source's `.str` accessor fails the load, is not modelled.
- `strip()` removes the characters Python's `str.isspace()` accepts below U+0100: tab to carriage return, U+001C to U+001F, space, U+0085 and U+00A0. The higher ones (U+1680, U+2000 to U+200A, U+2028, U+2029, U+202F, U+205F and U+3000) are kept. `lower()` maps ASCII letters only.
- Vulns.TimestampKey: `int()` of a build timestamp reads ASCII digits, one sign, surrounding whitespace and single `_` separators; the non-ASCII decimal digits Python also accepts raise ValueError in the model.
- A JSON `null` and an absent key are not told apart where the source reads with `.get`.
- The byte-identical copies under src/services/artifact_processors/ and src/services/jfrog_clients/jfrog_client.py, and src/models/devops.py, which behaves identically to the `DevOps` class of src/models/product.py (its docstring differs and its log call at devops.py:30 formats with `%s` where product.py:32 uses an f-string): one model serves both copies.
- `Repo.scmInfo` is a `const`, because the source assigns `scm_info` only in the constructor.
- The `__str__` and `__repr__` texts of objects other than `Product` and `ProductPillar`, and `get_integration_summary`, `get_severity_breakdown`, `get_vulnerability_summary` and `get_detailed_breakdown`: they produce display text only.
- The model assumes that no two repositories share a status object: the processors require distinct repositories and unshared CI, Sonar and JFrog statuses (`DistinctRepos`, `Unshared`, `UnsharedSonar`, `UnsharedJfrog`). The source meets this by building one fresh repository per listing entry (src/services/processors/repository_processors/repository_coordinator.py:61-72) and by giving each repository without one a fresh `CIStatus()` (src/services/processors/ci_processors/jfrog_ci_processor.py:352, src/services/ci_processors/sonar_ci_processor.py:90); aliasing between repositories is not modelled.
- `Repo.has_ci_status`, `Repo.has_vulnerabilities`, the `has_name` guard, `Product.get_repos_count` and `Product.has_devops_contact` are one-field tests; what they promise is stated on the constructors and update methods that set those fields.
- The `Vulnerabilities` methods that read through a missing `dependencies_vulns`: the model always carries the object the source creates before use.
- The Sonar processor's data load is a parameter; the Compass token and client are not part of this model.
- `is_main_branch_scanned` is never set by the Sonar processor (a TODO in the source), so it keeps its default.
- `src/services/data_loader.py`, the CI and repository coordinators, and the placeholder models (`scm_info`, `hr_info`, `cd_status`, `enforcement_status`, `repo_metadata`): they are dispatch code or plain data holders, used here only as datatypes.
- Behaviour that only the tests mention, such as `ProductPillar.remove_product` or deriving mono/multi from the size of the matched set, is not in the shown code and is not modelled; the publish type is a parameter.
- RepoModel.Repo.constructor: accepts details that are missing, although the source's debug log line would raise on them.
- GitLabModel.VpOf: a VP value that is not text is treated like a missing one, since HR values always reach the processor as text.

## Findings

| source | as written | input that shows it | evidently intended | confidence | as-written member | corrected member |
|---|---|---|---|---|---|---|
| src/services/processors/ci_processors/jfrog_ci_processor.py:379-385 | `set_exists` is called with the keyword arguments `branch`, `job_url`, `matched_build_names` and `build_name_mapping_methods`, but `JfrogCIStatus.set_exists` (src/models/ci_status.py:99) takes only `exists` | any repository with at least one matched build: the call raises TypeError, which the handler at :74 does not catch | the status records existence, branch and job URL, and the matched names and methods are kept per repository | not executed | JfrogCiProcessorModel.SetExistsAsWrittenRaises, JfrogCiProcessorModel.SetExistsCallError | CiStatus.JfrogCIStatus.SetBuildMatch, JfrogCiProcessorModel.JfrogCiProcessor.UpdateRepo |
| src/services/repository_processors/bitbucket_repo_processor.py:74-79 | when `repo.scm_info` is None, the exception handler at :77 reads `repo.scm_info.full_name` again | a repository without `scm_info`: AttributeError escapes `_populate_single_repo_owners`. The defect is latent: `Repo.__init__` with `scm_info` None raises AttributeError itself, since its log call at src/models/repo.py:47 reads `scm_info.repo_name` (repo.py:123), and no code assigns `scm_info` after construction, so no such repository reaches this handler | the repository gets no owners | not executed | BitbucketModel.ParseFullNameAsWritten, BitbucketModel.ParseFullNameAsWrittenRaises | BitbucketModel.ParseFullName, BitbucketModel.ParseFullNameSpec |
