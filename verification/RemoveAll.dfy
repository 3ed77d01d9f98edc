/** EnsureRemoveAll: os.RemoveAll, tried again after errors that can pass. */
module RemoveAll {
  import opened Wrappers

  datatype Cause = NotExist | Busy | Other

  /** What os.RemoveAll answers; a path error names the path it failed on. */
  datatype Answer =
    | Done
    | PathError(path: string, cause: Cause)
    | OtherError(cause: Cause)

  /** What the mount calls say in one attempt, when it comes to them: is the path mounted, what goes
      wrong with unmounting it, and is it mounted still. */
  datatype Mounts = Mounts(mounted: bool, unmount: Option<Cause>, stillMounted: bool) {
    predicate Stuck() {
      mounted && unmount.Some? && stillMounted
    }
  }

  /** What is returned: nothing, the error of os.RemoveAll, or one that wraps that of unmounting. */
  datatype Outcome =
    | Removed
    | Failed(error: Answer)
    | UnmountFailed(cause: Cause)
  {
    /** The error is a does-not-exist error, or wraps one. */
    predicate SaysNotExist() {
      match this
      case Removed => false
      case Failed(Done) => false
      case Failed(PathError(_, cause)) => cause == NotExist
      case Failed(OtherError(cause)) => cause == NotExist
      case UnmountFailed(cause) => cause == NotExist
    }
  }

  /** Everything the outside world answers: attempt i of RemoveAll, and the mount calls after it. */
  datatype World = World(answers: nat -> Answer, mounts: nat -> Mounts)

  const MAX_RETRY := 50

  /** How many of the first n attempts failed in this way. */
  function Times(w: World, n: nat, e: Answer): nat {
    if n == 0 then 0 else Times(w, n - 1, e) + if w.answers(n - 1) == e then 1 else 0
  }

  /** What attempt n comes to, if it is the last one. */
  function Verdict(dir: string, w: World, n: nat): Option<Outcome> {
    match w.answers(n)
    case Done => Some(Removed)
    case OtherError(_) => Some(Failed(w.answers(n)))
    case PathError(path, cause) =>
      match cause {
        case NotExist =>
          if Times(w, n, w.answers(n)) > 0 then Some(Failed(w.answers(n)))
          else if path == dir then Some(Removed)
          else None
        case Busy =>
          if w.mounts(n).Stuck() then Some(UnmountFailed(w.mounts(n).unmount.value))
          else if Times(w, n, w.answers(n)) == MAX_RETRY then Some(Failed(w.answers(n)))
          else None
        case Other => Some(Failed(w.answers(n)))
      }
  }

  ghost predicate PathsIn(w: World, paths: set<string>) {
    forall n :: w.answers(n).PathError? ==> w.answers(n).path in paths
  }

  /** Attempts that these paths still have, each one as missing and fifty as busy. */
  ghost function Left(w: World, n: nat, paths: set<string>): int {
    if paths == {} then 0
    else
      var p := Pick(paths);
      LeftFor(w, n, p) + Left(w, n, paths - {p})
  }

  ghost function LeftFor(w: World, n: nat, p: string): int {
    1 - Times(w, n, PathError(p, NotExist)) + MAX_RETRY - Times(w, n, PathError(p, Busy))
  }

  ghost function Pick(paths: set<string>): (p: string)
    requires paths != {}
    ensures p in paths
  {
    var p :| p in paths; p
  }

  lemma {:induction false} LeftAtStart(w: World, paths: set<string>)
    ensures Left(w, 0, paths) == 51 * |paths|
    decreases |paths|
  {
    if paths != {} {
      LeftAtStart(w, paths - {Pick(paths)});
    }
  }

  /** An attempt that is not the last one uses up exactly one. */
  lemma {:induction false} LeftAfter(w: World, n: nat, paths: set<string>)
    ensures Left(w, n + 1, paths) == Left(w, n, paths)
              - if w.answers(n).PathError? && w.answers(n).path in paths && w.answers(n).cause != Other then 1 else 0
    decreases |paths|
  {
    if paths != {} {
      LeftAfter(w, n, paths - {Pick(paths)});
    }
  }

  ghost predicate NoVerdictBefore(dir: string, w: World, n: nat) {
    forall i :: 0 <= i < n ==> Verdict(dir, w, i).None?
  }

  lemma {:induction false} TimesBounded(dir: string, w: World, n: nat, p: string)
    requires NoVerdictBefore(dir, w, n)
    ensures Times(w, n, PathError(p, NotExist)) <= 1 && Times(w, n, PathError(p, Busy)) <= MAX_RETRY
  {
    if n > 0 {
      TimesBounded(dir, w, n - 1, p);
      assert Verdict(dir, w, n - 1).None?;
    }
  }

  lemma {:induction false} LeftNotNegative(dir: string, w: World, n: nat, paths: set<string>)
    requires NoVerdictBefore(dir, w, n)
    ensures Left(w, n, paths) >= 0
    decreases |paths|
  {
    if paths != {} {
      TimesBounded(dir, w, n, Pick(paths));
      LeftNotNegative(dir, w, n, paths - {Pick(paths)});
    }
  }

  /** The first attempt with a verdict is the last one, and it comes after at most 51 attempts for
      each path that os.RemoveAll can name, whatever the mount calls answer. */
  method EnsureRemoveAll(dir: string, w: World, ghost paths: set<string>) returns (outcome: Outcome, attempts: nat)
    requires PathsIn(w, paths)
    ensures 1 <= attempts <= 51 * |paths| + 1
    ensures Verdict(dir, w, attempts - 1) == Some(outcome) && NoVerdictBefore(dir, w, attempts - 1)
    ensures outcome == Removed <==>
              || w.answers(attempts - 1) == Done
              || (w.answers(attempts - 1) == PathError(dir, NotExist)
                  && forall i :: 0 <= i < attempts - 1 ==> w.answers(i) != PathError(dir, NotExist))
  {
    hide Left;
    var notExistErr: set<string> := {};
    var exitOnErr: map<string, nat> := map[];
    attempts := 0;
    LeftAtStart(w, paths);
    while true
      invariant NoVerdictBefore(dir, w, attempts)
      invariant forall p :: p in notExistErr <==> Times(w, attempts, PathError(p, NotExist)) > 0
      invariant forall p :: Times(w, attempts, PathError(p, Busy)) == if p in exitOnErr then exitOnErr[p] else 0
      invariant Left(w, attempts, paths) == 51 * |paths| - attempts
      decreases 51 * |paths| - attempts
    {
      LeftNotNegative(dir, w, attempts, paths);
      LeftAfter(w, attempts, paths);
      var err := w.answers(attempts);
      var mounts := w.mounts(attempts);
      attempts := attempts + 1;
      if err.Done? {
        return Removed, attempts;
      }
      if !err.PathError? {
        return Failed(err), attempts;
      }
      if err.cause == NotExist {
        Occurs(w, attempts - 1, err);
        if err.path in notExistErr {
          return Failed(err), attempts;
        }
        notExistErr := notExistErr + {err.path};
        if err.path == dir {
          return Removed, attempts;
        }
        continue;
      }
      if err.cause != Busy {
        return Failed(err), attempts;
      }
      if mounts.mounted {
        if mounts.unmount.Some? {
          if mounts.stillMounted {
            return UnmountFailed(mounts.unmount.value), attempts;
          }
        }
      }
      if err.path in exitOnErr && exitOnErr[err.path] == MAX_RETRY {
        return Failed(err), attempts;
      }
      exitOnErr := exitOnErr[err.path := (if err.path in exitOnErr then exitOnErr[err.path] else 0) + 1];
    }
  }

  /** How often something was answered, as the number of attempts that got it. */
  lemma {:induction false} TimesCounts(w: World, n: nat, e: Answer)
    ensures Times(w, n, e) == |set i | 0 <= i < n && w.answers(i) == e|
  {
    if n > 0 {
      TimesCounts(w, n - 1, e);
      OneMoreAttempt(w, n - 1, e);
    }
  }

  lemma OneMoreAttempt(w: World, n: nat, e: Answer)
    ensures |set i | 0 <= i < n + 1 && w.answers(i) == e|
         == |set i | 0 <= i < n && w.answers(i) == e| + if w.answers(n) == e then 1 else 0
  {
    var earlier := set i | 0 <= i < n && w.answers(i) == e;
    var all := set i | 0 <= i < n + 1 && w.answers(i) == e;
    if w.answers(n) == e {
      assert all == earlier + {n};
    } else {
      assert all == earlier;
    }
  }

  /** What attempt n comes to, told from what was answered: success only when everything is gone, or the
      directory itself is for the first time; another attempt only after the first report of another path
      as missing, or while a path that is not stuck has been busy fewer than fifty times before; and
      otherwise the error of this attempt, or that of unmounting. */
  lemma VerdictMeans(dir: string, w: World, n: nat)
    ensures var a, seen := w.answers(n), |set i | 0 <= i < n && w.answers(i) == w.answers(n)|;
            && (Verdict(dir, w, n) == Some(Removed) <==> a == Done || (a == PathError(dir, NotExist) && seen == 0))
            && (Verdict(dir, w, n) == None <==>
                  a.PathError?
                  && ((a.cause == NotExist && a.path != dir && seen == 0)
                      || (a.cause == Busy && !w.mounts(n).Stuck() && seen != 50)))
            && (Verdict(dir, w, n).Some? && Verdict(dir, w, n).value.UnmountFailed? <==>
                  a.PathError? && a.cause == Busy && w.mounts(n).Stuck())
            && (Verdict(dir, w, n).Some? && Verdict(dir, w, n).value.UnmountFailed? ==>
                  w.mounts(n).mounted && w.mounts(n).stillMounted
                  && w.mounts(n).unmount == Some(Verdict(dir, w, n).value.cause))
            && (Verdict(dir, w, n).Some? && Verdict(dir, w, n).value.Failed? ==> Verdict(dir, w, n) == Some(Failed(a)))
  {
    TimesCounts(w, n, w.answers(n));
  }

  /** Contrary to its comment, the function can return an error that says "does not exist": exactly when
      os.RemoveAll reports one path below `dir` as missing for the second time, when a path that is
      still mounted cannot be unmounted because it does not exist, or when os.RemoveAll itself returns
      such an error without a path. */
  lemma NotExistEscapesIff(dir: string, w: World, n: nat)
    requires NoVerdictBefore(dir, w, n)
    ensures Verdict(dir, w, n).Some? && Verdict(dir, w, n).value.SaysNotExist()
       <==> match w.answers(n)
            case Done => false
            case OtherError(cause) => cause == NotExist
            case PathError(path, NotExist) =>
              path != dir && exists i :: 0 <= i < n && w.answers(i) == PathError(path, NotExist)
            case PathError(_, Busy) => w.mounts(n).Stuck() && w.mounts(n).unmount == Some(NotExist)
            case PathError(_, Other) => false
  {
    Occurs(w, n, w.answers(n));
    if i :| 0 <= i < n && w.answers(i) == w.answers(n) {
      assert Verdict(dir, w, i).None?;
    }
  }

  lemma {:induction false} Occurs(w: World, n: nat, e: Answer)
    ensures Times(w, n, e) > 0 <==> exists i :: 0 <= i < n && w.answers(i) == e
  {
    if n > 0 {
      Occurs(w, n - 1, e);
    }
  }

  /** The world in which one path is reported as missing over and over. */
  function AlwaysMissing(path: string): World {
    World(n => PathError(path, NotExist), n => Mounts(false, None, false))
  }

  lemma MissingTwice(dir: string, path: string)
    requires path != dir
    ensures NoVerdictBefore(dir, AlwaysMissing(path), 1)
    ensures Verdict(dir, AlwaysMissing(path), 1) == Some(Failed(PathError(path, NotExist)))
  {
    assert Times(AlwaysMissing(path), 1, PathError(path, NotExist)) == 1;
  }

  /** A mounted path that another mount has come to hide: busy to os.RemoveAll, in the mount table, and
      missing to umount. */
  lemma HiddenMount(dir: string, path: string)
    ensures var w := World(n => PathError(path, Busy), n => Mounts(true, Some(NotExist), true));
            Verdict(dir, w, 0) == Some(UnmountFailed(NotExist))
  {
  }
}
