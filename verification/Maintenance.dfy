/**
 The cleanup command (backend/src/Command/MaintenanceCleanupCommand.php): four deletions and a loop over the
 abandoned upload files, one after the other.
 */
module Maintenance {
  import opened Wrappers
  import Auth
  import Otp
  import N = Notifications
  import P = PackageProtocol

  datatype Report = Report(sessions: nat, nonces: nat, emailVerifications: nat, webhookEvents: nat,
      temporaryPackages: nat)

  predicate Abandoned(w: P.World, name: nat) {
    name in w.temporaries && w.temporaries[name].mtime < w.now - P.TEMPORARY_MAX_AGE
  }

  function AbandonedNames(w: P.World): (names: set<nat>)
    ensures forall name :: name in names <==> Abandoned(w, name)
  {
    set name | name in w.temporaries && Abandoned(w, name)
  }

  /** Removing some files does not change which others are abandoned. */
  lemma StillAbandoned(w: P.World, gone: set<nat>, name: nat)
    requires name !in gone
    ensures Abandoned(w.(temporaries := w.temporaries - gone), name) <==> Abandoned(w, name)
  {
  }

  lemma RemovedToo(w: P.World, gone: set<nat>, name: nat)
    ensures w.(temporaries := w.temporaries - (gone + {name})) ==
        w.(temporaries := w.temporaries - gone).(temporaries := (w.temporaries - gone) - {name})
  {
    assert w.temporaries - (gone + {name}) == (w.temporaries - gone) - {name};
  }

  lemma NamesArePresent(w: P.World)
    ensures AbandonedNames(w) <= w.temporaries.Keys
  {
  }

  lemma {:induction false} RetainedLength(rows: seq<Otp.Row>, oldest: int)
    ensures |Otp.Retained(rows, oldest)| <= |rows|
  {
    if rows != [] {
      RetainedLength(rows[..|rows| - 1], oldest);
    }
  }

  lemma FewerKeys<T>(a: map<string, T>, b: map<string, T>)
    requires a.Keys <= b.Keys
    ensures |a| <= |b|
  {
    assert |b.Keys| == |a.Keys| + |b.Keys - a.Keys| by {
      assert b.Keys == a.Keys + (b.Keys - a.Keys);
    }
  }

  /** Nobody notices a cleanup of the sign-in tables: every token and every signed message is treated as before. */
  lemma SignInIsUnaffected(s: Auth.Settings, w: Auth.World, token: string, m: Option<Auth.SignedMessage>)
    ensures Auth.Resolve(Auth.Apply(s, w, Auth.CleanSessions), token) == Auth.Resolve(w, token)
    ensures Auth.SignsIn(s, Auth.Apply(s, w, Auth.CleanNonces), m) <==> Auth.SignsIn(s, w, m)
  {
  }

  class Cleanup {
    const authSettings: Auth.Settings
    const otpSettings: Otp.Settings
    const packageSettings: P.Settings
    /** Whether a file may fail to be removed. */
    const faulty: bool
    var auth: Auth.World
    var otp: Otp.World
    var notifications: N.World
    var packages: P.World

    ghost predicate Valid()
      reads this
    {
      Otp.RowsOk(otp) && N.Invariant(notifications) && P.Invariant(packageSettings, packages)
    }

    constructor (authSettings: Auth.Settings, otpSettings: Otp.Settings, packageSettings: P.Settings, faulty: bool,
                 auth: Auth.World, otp: Otp.World, notifications: N.World, packages: P.World)
      requires Otp.RowsOk(otp) && N.Invariant(notifications) && P.Invariant(packageSettings, packages)
      ensures Valid() && this.auth == auth && this.otp == otp && this.notifications == notifications
          && this.packages == packages
    {
      this.authSettings, this.otpSettings, this.packageSettings, this.faulty := authSettings, otpSettings,
          packageSettings, faulty;
      this.auth, this.otp, this.notifications, this.packages := auth, otp, notifications, packages;
    }

    /** The body of the loop. */
    method Unlink(name: nat) returns (removed: bool)
      requires Valid()
      modifies this`packages
      ensures Valid()
      ensures packages == if removed then old(packages).(temporaries := old(packages).temporaries - {name})
          else old(packages)
      ensures removed ==> Abandoned(old(packages), name)
      ensures !faulty && Abandoned(old(packages), name) ==> removed
    {
      hide P.Invariant, Otp.RowsOk, N.Invariant;
      var chance: bool := *;
      if !Abandoned(packages, name) || (faulty && chance) {
        return false;
      }
      P.StepKeeps(packageSettings, packages, P.CleanTemporary(name));
      packages := packages.(temporaries := packages.temporaries - {name});
      return true;
    }

    /** The unlink loop over the upload files. */
    method RemoveAbandoned() returns (removed: nat, ghost gone: set<nat>)
      requires Valid()
      modifies this`packages
      ensures Valid()
      ensures packages == old(packages).(temporaries := old(packages).temporaries - gone)
      ensures gone <= AbandonedNames(old(packages)) && removed == |gone|
      ensures !faulty ==> gone == AbandonedNames(old(packages))
    {
      hide P.Invariant, Otp.RowsOk, N.Invariant, Abandoned, AbandonedNames;
      removed := 0;
      var paths := packages.temporaries.Keys;
      gone := {};
      NamesArePresent(packages);
      assert packages.temporaries == packages.temporaries - gone;
      while paths != {}
        invariant Valid()
        invariant packages == old(packages).(temporaries := old(packages).temporaries - gone)
        invariant gone <= AbandonedNames(old(packages)) && removed == |gone| && gone !! paths
        invariant !faulty ==> AbandonedNames(old(packages)) <= gone + paths
        decreases |paths|
      {
        var name :| name in paths;
        paths := paths - {name};
        StillAbandoned(old(packages), gone, name);
        RemovedToo(old(packages), gone, name);
        var unlinked := Unlink(name);
        if unlinked {
          gone := gone + {name};
          removed := removed + 1;
        }
      }
    }

    method CleanSignIn() returns (sessionCount: nat, nonceCount: nat)
      modifies this`auth
      ensures auth == Auth.Apply(authSettings, Auth.Apply(authSettings, old(auth), Auth.CleanSessions),
          Auth.CleanNonces)
      ensures |auth.sessions| + sessionCount == |old(auth).sessions| && |auth.nonces| + nonceCount == |old(auth).nonces|
    {
      var sessions := map t | t in auth.sessions && auth.sessions[t].expiresAt >= auth.now :: auth.sessions[t];
      FewerKeys(sessions, auth.sessions);
      sessionCount := |auth.sessions| - |sessions|;
      auth := auth.(sessions := sessions);
      var oldest := auth.now - Auth.NONCE_RETENTION_SECONDS;
      var nonces := map n | n in auth.nonces && auth.nonces[n].expiresAt >= oldest :: auth.nonces[n];
      FewerKeys(nonces, auth.nonces);
      nonceCount := |auth.nonces| - |nonces|;
      auth := auth.(nonces := nonces);
    }

    method CleanEmail() returns (rowCount: nat, eventCount: nat)
      requires Valid()
      modifies this`otp, this`notifications
      ensures Valid()
      ensures otp == Otp.Apply(otpSettings, old(otp), Otp.Clean)
          && notifications == N.Apply(old(notifications), N.Purge)
      ensures |otp.rows| + rowCount == |old(otp).rows|
          && |notifications.events| + eventCount == |old(notifications).events|
    {
      hide P.Invariant, Otp.RowsOk, N.Invariant;
      Otp.RowsStayOk(otpSettings, otp, Otp.Clean);
      N.StepKeeps(notifications, N.Purge);
      var rows := Otp.Retained(otp.rows, otp.now - Otp.RETENTION_SECONDS);
      RetainedLength(otp.rows, otp.now - Otp.RETENTION_SECONDS);
      rowCount := |otp.rows| - |rows|;
      otp := otp.(rows := rows);
      var oldest := notifications.now - N.EVENT_RETENTION_SECONDS;
      var events := map e | e in notifications.events && notifications.events[e] >= oldest :: notifications.events[e];
      FewerKeys(events, notifications.events);
      eventCount := |notifications.events| - |events|;
      notifications := notifications.(events := events);
    }

    /**
     `execute`.  Each table loses exactly its expired rows, in the steps the protocols know, and the report
     counts what was removed; uploads younger than a day and everything published stay.
     */
    method Execute(lockHeld: bool) returns (r: Option<Report>)
      requires Valid()
      modifies this
      ensures Valid()
      ensures r.None? <==> lockHeld
      ensures lockHeld ==>
          auth == old(auth) && otp == old(otp) && notifications == old(notifications) && packages == old(packages)
      ensures r.Some? ==>
                && auth == Auth.Apply(authSettings, Auth.Apply(authSettings, old(auth), Auth.CleanSessions),
                    Auth.CleanNonces)
                && otp == Otp.Apply(otpSettings, old(otp), Otp.Clean)
                && notifications == N.Apply(old(notifications), N.Purge)
                && packages == old(packages).(temporaries := packages.temporaries)
                && |auth.sessions| + r.value.sessions == |old(auth).sessions|
                && |auth.nonces| + r.value.nonces == |old(auth).nonces|
                && |otp.rows| + r.value.emailVerifications == |old(otp).rows|
                && |notifications.events| + r.value.webhookEvents == |old(notifications).events|
      ensures r.Some? && !faulty ==>
                && packages.temporaries == old(packages).temporaries - AbandonedNames(old(packages))
                && r.value.temporaryPackages == |AbandonedNames(old(packages))|
    {
      hide P.Invariant, Otp.RowsOk, N.Invariant, Auth.Apply, Otp.Apply, N.Apply, AbandonedNames;
      if lockHeld {
        return None;
      }
      var sessions, nonces := CleanSignIn();
      var rows, events := CleanEmail();
      var temporaries, gone := RemoveAbandoned();
      return Some(Report(sessions, nonces, rows, events, temporaries));
    }
  }
}
