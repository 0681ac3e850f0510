/**
 * `Readiness`: the application-wide registry of dependencies (database,
 * cache, ...) whose `readiness()` answers make up the `/ready` report.
 */
module Readiness {
  import opened Wrappers

  /** A registered object: its `str()` and whether it is an `ApplicationDependenciesABC`. */
  datatype Dependency = Dependency(repr: string, isApplicationDependency: bool)

  /** `DependencyHealthCheckSchema`: one line of the report. */
  datatype DependencyHealthCheck = DependencyHealthCheck(name: string, ready: bool)

  const NotADependencyError := ApplicationDependencyException("Readiness.add_dependency expected ApplicationDependenciesABC")

  /** The report for `deps` when the i-th dependency answers `answers[i]`. */
  function Report(deps: seq<Dependency>, answers: seq<bool>): (r: seq<DependencyHealthCheck>)
    requires |answers| == |deps|
    ensures |r| == |deps|
    ensures forall i :: 0 <= i < |r| ==> r[i] == DependencyHealthCheck(deps[i].repr, answers[i])
  {
    seq(|deps|, i requires 0 <= i < |deps| => DependencyHealthCheck(deps[i].repr, answers[i]))
  }

  /** Registering one more dependency adds its line at the end of the report and leaves the earlier lines as they were. */
  lemma ReportAppend(deps: seq<Dependency>, answers: seq<bool>, dep: Dependency, answer: bool)
    requires |answers| == |deps|
    ensures Report(deps + [dep], answers + [answer]) == Report(deps, answers) + [DependencyHealthCheck(dep.repr, answer)]
  {
  }

  /** The report holds a not-ready line exactly when some dependency answered `false`. */
  lemma ReportReadiness(deps: seq<Dependency>, answers: seq<bool>)
    requires |answers| == |deps|
    ensures (forall i :: 0 <= i < |deps| ==> Report(deps, answers)[i].ready) <==> (forall i :: 0 <= i < |answers| ==> answers[i])
  {
    var report := Report(deps, answers);
    assert forall i :: 0 <= i < |deps| ==> report[i].ready == answers[i];
  }

  /**
   * The one `Readiness` object: `SingletonMeta` makes every `Readiness()`
   * the same instance, and the list is a class attribute besides.
   */
  class Readiness {
    var dependencies: seq<Dependency>

    /**
     * The registry's invariant: only `ApplicationDependenciesABC` instances are
     * ever registered. The constructor establishes it and `AddDependency`
     * keeps it; `Ready` reports whatever is registered and needs nothing of it.
     */
    ghost predicate Valid()
      reads this
    {
      forall i :: 0 <= i < |dependencies| ==> dependencies[i].isApplicationDependency
    }

    constructor ()
      ensures dependencies == [] && Valid()
    {
      dependencies := [];
    }

    /** `add_dependency`: append an `ApplicationDependenciesABC`, refuse anything else without changing the list. */
    method AddDependency(dependency: Dependency) returns (r: Result<()>)
      requires Valid()
      modifies this
      ensures Valid()
      ensures !dependency.isApplicationDependency ==> r == Failure(NotADependencyError) && dependencies == old(dependencies)
      ensures dependency.isApplicationDependency ==> r == Success(()) && dependencies == old(dependencies) + [dependency]
    {
      if !dependency.isApplicationDependency {
        return Failure(NotADependencyError);
      }
      dependencies := dependencies + [dependency];
      r := Success(());
    }

    /** `ready`: one line per registered dependency, in registration order, with `answers[i]` what the i-th one's `readiness()` returns. */
    function Ready(answers: seq<bool>): (r: seq<DependencyHealthCheck>)
      reads this
      requires |answers| == |dependencies|
      ensures r == Report(dependencies, answers)
    {
      Report(dependencies, answers)
    }
  }
}
