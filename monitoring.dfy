/** The call-logging filter of plugins/Monitoring.kt: which request paths are logged. */
module Monitoring {

  /** Paths that are never logged: the health and metrics endpoints. */
  const ExcludedPaths: seq<string> := ["/isAlive", "/isReady", "/metrics"]

  /** The route the same plugin installs for the Prometheus scrape. */
  const MetricsRoute: string := "/metrics-micrometer"

  /** Kotlin's `String.startsWith`. */
  predicate StartsWith(s: string, prefix: string)
  {
    |prefix| <= |s| && s[..|prefix|] == prefix
  }

  /** Kotlin's `List.contains`, element by element from the head. */
  function Contains(xs: seq<string>, x: string): (b: bool)
    ensures b <==> x in xs
  {
    if xs == [] then false
    else if xs[0] == x then true
    else Contains(xs[1..], x)
  }

  /** The `CallLogging` filter: the call is logged when this holds. */
  function ShouldLog(path: string): (logged: bool)
  {
    StartsWith(path, "/") && !Contains(ExcludedPaths, path)
  }

  /** The three excluded paths are the only absolute paths that are not logged. */
  lemma LoggedIffAbsoluteAndNotExcluded(path: string)
    ensures ShouldLog(path) <==>
              (|path| > 0 && path[0] == '/' &&
               path != "/isAlive" && path != "/isReady" && path != "/metrics")
  {
    if |path| > 0 {
      assert path[..1] == [path[0]];
    }
  }

  /** A path that does not start with `/` (the empty path included) is never logged. */
  lemma RelativePathNotLogged(path: string)
    requires |path| == 0 || path[0] != '/'
    ensures !ShouldLog(path)
  {
    if |path| > 0 {
      assert path[..1] == [path[0]];
    }
  }

  /** Exclusion is by exact match: extending an excluded path (`/isAlive/x`,
      `/metrics-micrometer`) gives a path that is logged. */
  lemma {:induction false} ExtendedExcludedPathLogged(excluded: string, suffix: string)
    requires excluded in ExcludedPaths
    requires suffix != []
    ensures ShouldLog(excluded + suffix)
  {
    var p := excluded + suffix;
    assert |excluded| == 8;
    assert |p| > 8;
    assert p[..1] == excluded[..1];
    LoggedIffAbsoluteAndNotExcluded(p);
  }

  /** The plugin's own scrape route is logged even though `/metrics` is not. */
  lemma MetricsRouteLogged()
    ensures ShouldLog(MetricsRoute)
    ensures !ShouldLog("/metrics")
  {
    assert MetricsRoute == "/metrics" + "-micrometer";
    ExtendedExcludedPathLogged("/metrics", "-micrometer");
  }
}
