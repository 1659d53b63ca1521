/**
 * A product with its repositories and its DevOps contact (product.py).
 */
module ProductModel {
  import opened Wrappers
  import opened Text
  import opened RepoModel

  /** `DevOps`: a contact whose email holds an `@`. */
  datatype DevOps = DevOps(fullName: string, email: string)

  /** The `DevOps` constructor: an email without `@` raises ValueError. */
  function NewDevOps(fullName: string, email: string): (r: Result<DevOps>)
    ensures r.Success? <==> '@' in email
    ensures r.Success? ==> r.value == DevOps(fullName, email)
    ensures r.Failure? ==> r.error == "ValueError"
  {
    if '@' !in email then Failure("ValueError") else Success(DevOps(fullName, email))
  }

  /** `Product`. */
  class Product {
    const name: string
    var devops: Option<DevOps>
    var description: Option<string>
    var repos: seq<Repo>

    /** A new product has no repositories. */
    constructor(name: string, devops: Option<DevOps>, description: Option<string>)
      ensures this.name == name && this.devops == devops && this.description == description
      ensures repos == []
      ensures GetReposCount() == 0 && (HasDevopsContact() <==> devops.Some?)
    {
      this.name := name;
      this.devops := devops;
      this.description := description;
      repos := [];
    }

    /** `set_devops`: replaces the contact and nothing else. */
    method SetDevops(d: DevOps)
      modifies this
      ensures devops == Some(d)
      ensures repos == old(repos) && description == old(description)
      ensures HasDevopsContact()
    {
      devops := Some(d);
    }

    /** `add_repo`: appends, duplicates included. */
    method AddRepo(r: Repo)
      modifies this
      ensures repos == old(repos) + [r]
      ensures GetReposCount() == old(GetReposCount()) + 1
      ensures devops == old(devops) && description == old(description)
    {
      repos := repos + [r];
    }

    /** `remove_repo` is not implemented: it removes nothing and answers False. */
    method RemoveRepo(repoName: string) returns (removed: bool)
      ensures !removed
    {
      removed := false;
    }

    function GetReposCount(): nat
      reads this
    {
      |repos|
    }

    predicate HasDevopsContact()
      reads this
    {
      devops.Some?
    }

    /**
     * `__str__`: the name, then the repository count, which reads back with
     * `int()`, then the contact's name or "No DevOps assigned".
     */
    function Str(): (t: string)
      reads this
      ensures var head := "Product(name='" + name + "', repos=";
        var tail := ", devops='" + ContactName(devops) + "')";
        |head| + |tail| < |t| && t[..|head|] == head && t[|t| - |tail|..] == tail
        && ParseInt(t[|head|..|t| - |tail|]) == Some(|repos|)
    {
      var head := "Product(name='" + name + "', repos=";
      var tail := ", devops='" + ContactName(devops) + "')";
      NumberReadsBack(head, |repos|, tail);
      head + NatToString(|repos|) + tail
    }

    /**
     * `__repr__`: the name, the description (`None` when absent), the
     * repository count, which reads back, and the contact as `DevOps(...)`
     * or `None`.
     */
    function Repr(): (t: string)
      reads this
      ensures var head := "Product(name='" + name + "', description='" + description.GetOr("None") + "', repos=";
        var tail := ", devops=" + ContactRepr(devops) + ")";
        |head| + |tail| < |t| && t[..|head|] == head && t[|t| - |tail|..] == tail
        && ParseInt(t[|head|..|t| - |tail|]) == Some(|repos|)
    {
      var head := "Product(name='" + name + "', description='" + description.GetOr("None") + "', repos=";
      var tail := ", devops=" + ContactRepr(devops) + ")";
      NumberReadsBack(head, |repos|, tail);
      head + NatToString(|repos|) + tail
    }
  }

  /** What the text shows in place of a missing DevOps contact. */
  const NoDevOpsText := "No DevOps assigned"

  /** The contact's name as `__str__` shows it. */
  function ContactName(devops: Option<DevOps>): string {
    if devops.Some? then devops.value.fullName else NoDevOpsText
  }

  /** `DevOps.__str__`. */
  function DevOpsStr(d: DevOps): string {
    "DevOps(name='" + d.fullName + "', email='" + d.email + "')"
  }

  /** The contact as an f-string shows it: its `__str__`, or `None`. */
  function ContactRepr(devops: Option<DevOps>): string {
    if devops.Some? then DevOpsStr(devops.value) else "None"
  }
}
