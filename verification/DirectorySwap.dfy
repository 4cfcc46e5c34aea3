/**
 The installer's replacement of one skill directory (scripts/install.py, `_transactional_copy`).
 Every file-system step may fail as its entry in `Faults` says; `trace` records what a machine that
 stopped between two steps would find at the destination and at the backup path.
 */
module DirectorySwap {

  /** What a path holds. */
  datatype Node<T> = Absent | Link | File | Dir(tree: T)

  /** A recursive removal either finishes or raises, leaving something or nothing behind. */
  datatype Removal<T> = Removed | Raised(left: Node<T>)

  datatype Faults<T> = Faults(
    rootFails: bool, stagingFails: bool,
    copied: T, copyFails: bool, readStagedFails: bool,
    saveFails: bool, swapFails: bool, arrived: T, readInstalledFails: bool,
    discard: Removal<T>, restoreFails: bool, restoreAgainFails: bool,
    dropBackup: Removal<T>, parkFails: bool, dropStaging: Removal<T>, rmdirFails: bool)

  /** The digest expected of the tree, and the check against the signed manifest. */
  datatype Spec<!T> = Spec(digest: T -> string, signed: T -> bool, expected: string) {
    predicate Verifies(t: T) { digest(t) == expected && signed(t) }
  }

  datatype Snapshot<T> = Snapshot(destination: Node<T>, backup: Node<T>)

  function After<T>(r: Removal<T>): (n: Node<T>) {
    match r
    case Removed => Absent
    case Raised(left) => left
  }

  ghost predicate Installed<T>(spec: Spec<T>, destination: Node<T>) {
    destination.Dir? && spec.Verifies(destination.tree)
  }

  /** The previous tree is where it was or at the backup path; if there was none, there is none. */
  ghost predicate Survives<T>(previous: Node<T>, s: Snapshot<T>) {
    s.destination == previous || (!previous.Absent? && s.backup == previous)
  }

  /** A machine stopped here still holds the previous tree, if there was one, or the verified new one. */
  ghost predicate Recoverable<T>(spec: Spec<T>, previous: Node<T>, s: Snapshot<T>) {
    !previous.Dir? || s.destination == previous || s.backup == previous || Installed(spec, s.destination)
  }

  /** Every step up to the second verification succeeds. */
  ghost predicate Arrives<T>(spec: Spec<T>, faults: Faults<T>, previous: Node<T>) {
    (previous.Absent? || previous.Dir?) && !faults.rootFails && !faults.stagingFails &&
    !faults.copyFails && !faults.readStagedFails && spec.Verifies(faults.copied) &&
    (previous.Dir? ==> !faults.saveFails) && !faults.swapFails
  }

  ghost predicate Accepted<T>(spec: Spec<T>, faults: Faults<T>, previous: Node<T>) {
    Arrives(spec, faults, previous) && !faults.readInstalledFails && spec.Verifies(faults.arrived)
  }

  /** The new copy arrived at the destination and was rejected there. */
  ghost predicate Rejected<T>(spec: Spec<T>, faults: Faults<T>, previous: Node<T>) {
    Arrives(spec, faults, previous) && (faults.readInstalledFails || !spec.Verifies(faults.arrived))
  }

  /** A rejected copy could not be removed, so the finally block removes the backup instead of restoring it. */
  ghost predicate LosesPrevious<T>(spec: Spec<T>, faults: Faults<T>, previous: Node<T>) {
    Rejected(spec, faults, previous) && After(faults.discard) != Absent && After(faults.discard) != previous &&
    (previous.Dir? ==> After(faults.dropBackup) != previous)
  }

  class Disk<T(==)> {
    var destination: Node<T>
    var backup: Node<T>
    var staging: bool
    var payload: Node<T>
    var parked: Node<T>
    ghost var trace: seq<Snapshot<T>>

    constructor (found: Node<T>)
      ensures destination == found && backup == Absent && !staging && trace == []
    {
      destination, backup, staging, payload, parked, trace := found, Absent, false, Absent, Absent, [];
    }

    ghost method Mark()
      modifies this`trace
      ensures trace == old(trace) + [Snapshot(destination, backup)]
    {
      trace := trace + [Snapshot(destination, backup)];
    }

    ghost predicate Traced(good: Snapshot<T> -> bool)
      reads this
    {
      forall i :: 0 <= i < |trace| ==> good(trace[i])
    }

    /** The try block: stage, verify, move the old tree aside, move the new one in, verify again. */
    method Exchange(
        spec: Spec<T>, faults: Faults<T>, ghost previous: Node<T>)
      returns (committed: bool, movedOld: bool)
      requires destination == previous && backup == Absent && staging && (previous.Absent? || previous.Dir?)
      requires !faults.rootFails && !faults.stagingFails
      requires trace == []
      modifies this
      ensures staging
      ensures committed <==> Accepted(spec, faults, previous)
      ensures committed ==> Installed(spec, destination) && backup == previous && movedOld == previous.Dir?
      ensures !committed && Rejected(spec, faults, previous) && After(faults.discard) != Absent ==>
                destination == After(faults.discard) && backup == previous
      ensures !committed ==>
                (destination == previous && backup == Absent) ||
                (previous.Dir? && destination == Absent && backup == previous && movedOld) ||
                (Rejected(spec, faults, previous) && destination == After(faults.discard) != Absent &&
                 backup == previous && movedOld == previous.Dir?)
      ensures !committed && faults.discard.Removed? && !faults.restoreFails ==>
              destination == previous && backup == Absent
      ensures Traced((s: Snapshot<T>) => Recoverable(spec, previous, s))
    {
      committed, movedOld := false, false;
      payload := Dir(faults.copied);
      if faults.copyFails || faults.readStagedFails || !spec.Verifies(faults.copied) { return; }
      if destination != Absent {
        if faults.saveFails { return; }
        destination, backup := Absent, destination;
        Mark();
        movedOld := true;
      }
      var movedNew := false;
      if !faults.swapFails {
        destination, payload := Dir(faults.arrived), Absent;
        Mark();
        movedNew := true;
        if !faults.readInstalledFails && spec.Verifies(faults.arrived) {
          committed := true;
          return;
        }
      }
      if movedNew && destination != Absent {
        destination := After(faults.discard);
        Mark();
        if faults.discard.Raised? { return; }
      }
      if movedOld && backup != Absent && destination == Absent {
        if faults.restoreFails { return; }
        destination, backup := backup, Absent;
        Mark();
        movedOld := false;
      }
    }

    method TransactionalCopy(spec: Spec<T>, faults: Faults<T>) returns (ok: bool)
      requires backup == Absent && !staging && trace == []
      modifies this
      ensures ok <==> Accepted(spec, faults, old(destination))
      ensures ok ==> Installed(spec, destination)
      ensures !ok ==> (Survives(old(destination), Snapshot(destination, backup)) <==>
                       !LosesPrevious(spec, faults, old(destination)))
      ensures ok && faults.dropBackup.Removed? ==> backup == Absent
      ensures ok && faults.dropStaging.Removed? ==> !staging
      ensures !ok && faults.discard.Removed? && !faults.restoreFails ==>
              destination == old(destination) && backup == Absent
      ensures LosesPrevious(spec, faults, old(destination)) ||
              Traced((s: Snapshot<T>) => Recoverable(spec, old(destination), s))
    {
      if faults.rootFails { return false; }
      if destination.Link? { return false; }
      if destination != Absent && !destination.Dir? { return false; }
      if faults.stagingFails { return false; }
      ghost var previous := destination;
      staging := true;
      var committed, movedOld := Exchange(spec, faults, previous);
      if movedOld && backup != Absent && destination == Absent {
        if faults.restoreAgainFails { return false; }
        destination, backup := backup, Absent;
        Mark();
      }
      if backup != Absent {
        if committed && faults.dropBackup.Raised? && !faults.parkFails && After(faults.dropBackup) != Absent {
          backup, parked := Absent, After(faults.dropBackup);
        } else {
          backup := After(faults.dropBackup);
        }
        Mark();
      }
      if staging {
        if faults.dropStaging.Removed? || (committed && !faults.rmdirFails) {
          staging, payload, parked := false, Absent, Absent;
        } else {
          payload := After(faults.dropStaging);
        }
      }
      return committed;
    }
  }

  /** The loss does happen: reading the installed copy fails and its removal leaves some of it. */
  lemma PreviousTreeCanBeLost<T>(
      spec: Spec<T>, before: T, after: T, rest: T)
    returns (faults: Faults<T>)
    requires spec.Verifies(after) && rest != before
    ensures faults.readInstalledFails && faults.discard == Raised(Dir(rest))
    ensures LosesPrevious(spec, faults, Dir(before))
  {
    faults := Faults(
      false, false, after, false, false, false, false, after, true,
      Raised(Dir(rest)), false, false, Removed, false, Removed, false);
  }
}
