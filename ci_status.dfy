/**
 * Continuous-integration status objects (ci_status.py): the SonarQube and
 * JFrog statuses of one repository and their aggregate.
 */
module CiStatus {
  import opened Wrappers

  /** SonarQube integration status. */
  class SonarCIStatus {
    var isExist: bool
    var projectKey: Option<string>
    var isMainBranchScanned: bool

    constructor(isExist: bool, projectKey: Option<string>, isMainBranchScanned: bool)
      ensures this.isExist == isExist && this.projectKey == projectKey
      ensures this.isMainBranchScanned == isMainBranchScanned
    {
      this.isExist := isExist;
      this.projectKey := projectKey;
      this.isMainBranchScanned := isMainBranchScanned;
    }

    /** `is_configured`: the integration exists and a project key is known. */
    predicate IsConfigured()
      reads this
    {
      isExist && projectKey.Some?
    }

    /** `is_scanning_active`: configured, and the main branch is scanned. */
    predicate IsScanningActive()
      reads this
    {
      IsConfigured() && isMainBranchScanned
    }

    /**
     * `set_exists`: the existence flag is always set; the project key is
     * replaced only by a truthy (present, non-empty) key.
     */
    method SetExists(present: bool, projectKey: Option<string>)
      modifies this
      ensures isExist == present
      ensures this.projectKey == if projectKey.Some? && projectKey.value != "" then projectKey else old(this.projectKey)
      ensures isMainBranchScanned == old(isMainBranchScanned)
      ensures IsConfigured() <==> present && (old(this.projectKey).Some? || (projectKey.Some? && projectKey.value != ""))
    {
      isExist := present;
      if projectKey.Some? && projectKey.value != "" {
        this.projectKey := projectKey;
      }
    }
  }

  /** A fresh default Sonar status: not existing, no key, not scanned. */
  predicate SonarIsDefault(s: SonarCIStatus)
    reads s
  {
    !s.isExist && s.projectKey.None? && !s.isMainBranchScanned
  }

  /** A Sonar status is scanning-active only when it is configured, and configured only when it exists. */
  lemma SonarPredicatesNest(s: SonarCIStatus)
    ensures s.IsScanningActive() ==> s.IsConfigured()
    ensures s.IsConfigured() ==> s.isExist
    ensures SonarIsDefault(s) ==> !s.IsConfigured() && !s.IsScanningActive()
  {
  }

  /** JFrog integration status. */
  class JfrogCIStatus {
    var isExist: bool
    var branch: Option<string>
    var ciPlatform: Option<string>
    var jobUrl: Option<string>
    var deployedArtifacts: seq<string>

    /** `deployed_artifacts or []`: an absent list becomes empty. */
    constructor(isExist: bool, branch: Option<string>, ciPlatform: Option<string>, jobUrl: Option<string>,
                deployedArtifacts: Option<seq<string>>)
      ensures this.isExist == isExist && this.branch == branch
      ensures this.ciPlatform == ciPlatform && this.jobUrl == jobUrl
      ensures this.deployedArtifacts == deployedArtifacts.GetOr([])
    {
      this.isExist := isExist;
      this.branch := branch;
      this.ciPlatform := ciPlatform;
      this.jobUrl := jobUrl;
      this.deployedArtifacts := deployedArtifacts.GetOr([]);
    }

    /** `is_configured`: the integration exists and the CI platform is known. */
    predicate IsConfigured()
      reads this
      ensures IsConfigured() ==> isExist
      ensures ciPlatform.None? ==> !IsConfigured()
    {
      isExist && ciPlatform.Some?
    }

    predicate HasArtifacts()
      reads this
    {
      |deployedArtifacts| > 0
    }

    /** `get_artifact_count`: positive exactly when `has_artifacts` holds. */
    function GetArtifactCount(): (n: nat)
      reads this
      ensures n > 0 <==> HasArtifacts()
      ensures n == 0 <==> deployedArtifacts == []
    {
      |deployedArtifacts|
    }

    /** `set_exists`: changes the existence flag and nothing else. */
    method SetExists(present: bool)
      modifies this
      ensures isExist == present
      ensures branch == old(branch) && ciPlatform == old(ciPlatform)
      ensures jobUrl == old(jobUrl) && deployedArtifacts == old(deployedArtifacts)
      ensures IsConfigured() <==> present && ciPlatform.Some?
    {
      isExist := present;
    }

    /**
     * The update the build matcher intends when it calls `set_exists` with a
     * branch and a job URL: the flag, the branch and the job URL are set,
     * the platform and the artifact list are kept. The matched build names
     * and their mapping methods are not fields of this class; the matcher
     * returns them in its own result.
     */
    method SetBuildMatch(present: bool, branch: Option<string>, jobUrl: Option<string>)
      modifies this
      ensures isExist == present && this.branch == branch && this.jobUrl == jobUrl
      ensures ciPlatform == old(ciPlatform) && deployedArtifacts == old(deployedArtifacts)
    {
      isExist := present;
      this.branch := branch;
      this.jobUrl := jobUrl;
    }
  }

  /** `has_artifacts` agrees with `get_artifact_count`. */
  lemma ArtifactCountAgrees(s: JfrogCIStatus)
    ensures s.HasArtifacts() <==> s.GetArtifactCount() > 0
    ensures s.GetArtifactCount() == |s.deployedArtifacts|
  {
  }

  predicate JfrogIsDefault(s: JfrogCIStatus)
    reads s
  {
    !s.isExist && s.branch.None? && s.ciPlatform.None? && s.jobUrl.None? && s.deployedArtifacts == []
  }

  /** Aggregate CI status of a repository. */
  class CIStatus {
    const sonarStatus: SonarCIStatus
    const jfrogStatus: JfrogCIStatus

    /** Missing sub-statuses are filled with fresh defaults. */
    constructor(sonarStatus: SonarCIStatus?, jfrogStatus: JfrogCIStatus?)
      ensures sonarStatus != null ==> this.sonarStatus == sonarStatus
      ensures sonarStatus == null ==> fresh(this.sonarStatus) && SonarIsDefault(this.sonarStatus)
      ensures jfrogStatus != null ==> this.jfrogStatus == jfrogStatus
      ensures jfrogStatus == null ==> fresh(this.jfrogStatus) && JfrogIsDefault(this.jfrogStatus)
    {
      var s: SonarCIStatus;
      if sonarStatus == null {
        s := new SonarCIStatus(false, None, false);
      } else {
        s := sonarStatus;
      }
      var j: JfrogCIStatus;
      if jfrogStatus == null {
        j := new JfrogCIStatus(false, None, None, None, None);
      } else {
        j := jfrogStatus;
      }
      this.sonarStatus := s;
      this.jfrogStatus := j;
    }

    /** `is_fully_integrated`: both integrations are configured. */
    predicate IsFullyIntegrated()
      reads this, sonarStatus, jfrogStatus
    {
      sonarStatus.IsConfigured() && jfrogStatus.IsConfigured()
    }

    /** `has_any_integration`: either integration exists. */
    predicate HasAnyIntegration()
      reads this, sonarStatus, jfrogStatus
    {
      sonarStatus.isExist || jfrogStatus.isExist
    }
  }

  /** Full integration implies some integration; a default status has neither. */
  lemma CIStatusPredicates(c: CIStatus)
    ensures c.IsFullyIntegrated() ==> c.HasAnyIntegration()
    ensures SonarIsDefault(c.sonarStatus) && JfrogIsDefault(c.jfrogStatus) ==>
      !c.HasAnyIntegration() && !c.IsFullyIntegrated()
  {
  }
}
