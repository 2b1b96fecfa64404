/**
 One enroll request (`enroll` in `enrollment.py`) on a database session, statement by statement.
 What the outside decides is a parameter: which codes the OTP verifies against, the order in
 which the database returns rows, whether another request claims the code in between, how adding the
 peer ends, and whether the compensation and the answer can be carried out.
 */
module Enrollment {
  import opened Options
  import opened TunnelAddresses
  import opened EnrollmentRuns
  import PeerTable

  datatype Database = Database(codes: map<nat, Code>, devices: map<nat, Row>, events: set<nat>, audits: set<nat>)

  datatype Outcome = Enrolled(ip: int) | InvalidOtp | InvalidKey | AlreadyUsed | NoAddress(error: Error) | Conflict | PeerFailed | Uncaught

  predicate Usable(db: Database, verified: set<nat>, now: int, c: nat) {
    c in db.codes && c in verified && !db.codes[c].used && db.codes[c].expires > now
  }

  /** The first code, in the order of the rows, that the OTP opens. */
  function FirstUsable(db: Database, verified: set<nat>, now: int, order: seq<nat>): Option<nat> {
    if order == [] then None
    else if Usable(db, verified, now, order[0]) then Some(order[0])
    else FirstUsable(db, verified, now, order[1..])
  }

  /** What the compensation leaves of it. */
  function Undone(db: Database, c: nat, d: nat): Database
    requires c in db.codes
  {
    Database(db.codes[c := db.codes[c].(used := false)], db.devices - {d}, db.events - {d}, db.audits - {d})
  }

  /** The compensation takes back exactly what a success adds. */
  lemma UndoneIsBefore(db: Database, c: nat, d: nat, key: string, ip: int)
    requires c in db.codes && !db.codes[c].used && d !in db.devices && d !in db.events && d !in db.audits
    ensures var after := Database(db.codes[c := Code(db.codes[c].expires, true)], db.devices[d := Row(key, ip)], db.events + {d}, db.audits + {d});
      Undone(after, c, d) == db
  {
    var after := Database(db.codes[c := Code(db.codes[c].expires, true)], db.devices[d := Row(key, ip)], db.events + {d}, db.audits + {d});
    var undone := Undone(after, c, d);
    assert undone.codes == db.codes && undone.devices == db.devices;
    assert undone.events == db.events && undone.audits == db.audits;
  }

  class Session {
    /** The open transaction's view, and what is committed. */
    var codes: map<nat, Code>
    var devices: map<nat, Row>
    var events: set<nat>
    var audits: set<nat>
    var committed: Database

    constructor (db: Database)
      ensures View() == committed == db
    {
      codes, devices, events, audits, committed := db.codes, db.devices, db.events, db.audits, db;
    }

    function View(): Database
      reads this
    {
      Database(codes, devices, events, audits)
    }

    method Commit()
      modifies this
      ensures View() == old(View()) == committed
    {
      committed := View();
    }

    method Rollback()
      modifies this
      ensures View() == old(committed) == committed
    {
      codes, devices, events, audits := committed.codes, committed.devices, committed.events, committed.audits;
    }

    method MatchCode(order: seq<nat>, verified: set<nat>, now: int) returns (matched: Option<nat>)
      ensures matched == FirstUsable(View(), verified, now, order)
      ensures matched.None? <==> forall i :: 0 <= i < |order| ==> !(order[i] in verified && order[i] in codes && !codes[order[i]].used && codes[order[i]].expires > now)
    {
      UsableIsThere(View(), verified, now, order);
      for i := 0 to |order|
        invariant FirstUsable(View(), verified, now, order[i..]) == FirstUsable(View(), verified, now, order)
      {
        assert order[i..][1..] == order[i+1..];
        if Usable(View(), verified, now, order[i]) {
          return Some(order[i]);
        }
      }
      return None;
    }

    /** The conditional update of `_claim_enrollment_code`: whether it changed a row. */
    method ClaimCode(c: nat, now: int) returns (won: bool)
      modifies this
      ensures won == (c in old(codes) && !old(codes)[c].used && old(codes)[c].expires > now)
      ensures View() == old(View()).(codes := if won then old(codes)[c := old(codes)[c].(used := true)] else old(codes))
      ensures committed == old(committed)
    {
      won := c in codes && !codes[c].used && codes[c].expires > now;
      if won {
        codes := codes[c := codes[c].(used := true)];
      }
    }

    /** `_compensate_failed_peer_add` */
    method CompensateFailedPeerAdd(d: nat, c: nat)
      requires c in committed.codes
      modifies this
      ensures View() == committed == Undone(old(committed), c, d)
    {
      Rollback();
      audits := audits - {d};
      events := events - {d};
      devices := devices - {d};
      codes := codes[c := codes[c].(used := false)];
      Commit();
    }

    /** Everything after the commit of the enrollment. */
    method AddPeerAndAnswer(c: nat, d: nat, ip: int, peer: PeerAnswer, undone: bool, answered: bool) returns (outcome: Outcome)
      requires View() == committed && c in committed.codes
      modifies this
      ensures View() == committed == if peer == Refused && undone then Undone(old(committed), c, d) else old(committed)
      ensures outcome == match peer
        case Added => if answered then Enrolled(ip) else Uncaught
        case Refused => if undone then PeerFailed else Uncaught
        case Raised => Uncaught
    {
      match peer
      case Added => return if answered then Enrolled(ip) else Uncaught;
      case Raised => return Uncaught;
      case Refused =>
        if !undone {
          Rollback();
          return Uncaught;
        }
        CompensateFailedPeerAdd(d, c);
        return PeerFailed;
    }

    method EnrollDevice(net: HubNetwork, verified: set<nat>, codeOrder: seq<nat>, rowOrder: seq<nat>, key: string, now: int, d: nat,
                        raced: bool, peer: PeerAnswer, undone: bool, answered: bool)
      returns (outcome: Outcome)
      requires View() == committed
      requires d !in devices && d !in events && d !in audits
      requires forall i :: 0 <= i < |rowOrder| ==> rowOrder[i] in devices
      modifies this
      ensures View() == committed
      ensures var db := old(committed); var matched := FirstUsable(db, verified, now, codeOrder); var next := NextTunnelIp(net, RowsOf(db.devices, rowOrder));
        outcome ==
          if matched.None? then InvalidOtp
          else if !PeerTable.ValidKey(key) then InvalidKey
          else if raced then AlreadyUsed
          else if next.Err? then NoAddress(next.error)
          else if Clashes(db.devices, key, next.value) then Conflict
          else if peer == Raised || (peer == Refused && !undone) || (peer == Added && !answered) then Uncaught
          else if peer == Refused then PeerFailed
          else Enrolled(next.value)
      // The OTP is refused exactly when it opens no stored, unused, unexpired code.
      ensures outcome == InvalidOtp <==>
        forall i :: 0 <= i < |codeOrder| ==>
          !(codeOrder[i] in verified && codeOrder[i] in old(codes) && !old(codes)[codeOrder[i]].used && old(codes)[codeOrder[i]].expires > now)
      // Otherwise the first such code is the one that a success, or an exception after the commit, uses up.
      ensures outcome.Enrolled? || outcome == Uncaught ==>
        exists i ::
          && 0 <= i < |codeOrder| && codeOrder[i] in verified && codeOrder[i] in old(codes)
          && !old(codes)[codeOrder[i]].used && old(codes)[codeOrder[i]].expires > now
          && (forall j :: 0 <= j < i ==>
                !(codeOrder[j] in verified && codeOrder[j] in old(codes) && !old(codes)[codeOrder[j]].used && old(codes)[codeOrder[j]].expires > now))
          && codes == old(codes)[codeOrder[i] := old(codes)[codeOrder[i]].(used := true)]
      ensures outcome.Enrolled? || outcome == Uncaught ==>
        var next := NextTunnelIp(net, RowsOf(old(devices), rowOrder));
        && next.Ok? && (outcome.Enrolled? ==> outcome.ip == next.value)
        && devices == old(devices)[d := Row(key, next.value)] && events == old(events) + {d} && audits == old(audits) + {d}
        && forall e :: e in old(devices) ==> old(devices)[e].key != key && old(devices)[e].ip != next.value
      ensures outcome == Conflict ==> exists e ::
        && e in old(devices)
        && (old(devices)[e].key == key || NextTunnelIp(net, RowsOf(old(devices), rowOrder)) == Ok(old(devices)[e].ip))
      ensures !outcome.Enrolled? && outcome != Uncaught ==> committed == old(committed)
    {
      var matched := MatchCode(codeOrder, verified, now);
      UsableIsThere(committed, verified, now, codeOrder);
      if matched.None? {
        return InvalidOtp;
      }
      if !PeerTable.ValidKey(key) {
        return InvalidKey;
      }
      var c := matched.value;
      var won := ClaimCode(c, now);
      if raced || !won {
        Rollback();
        return AlreadyUsed;
      }
      var next := NextFreeTunnelIp(net, RowsOf(devices, rowOrder));
      if next.Err? {
        Rollback();
        return NoAddress(next.error);
      }
      if Clashes(devices, key, next.value) {
        Rollback();
        return Conflict;
      }
      devices := devices[d := Row(key, next.value)];
      events := events + {d};
      audits := audits + {d};
      Commit();
      UndoneIsBefore(old(committed), c, d, key, next.value);
      outcome := AddPeerAndAnswer(c, d, next.value, peer, undone, answered);
    }
  }

  /** The match is the first code, in the order of the rows, that is stored, unused and unexpired and
      that the OTP opens; there is none exactly when no row is such a code. */
  lemma {:induction false} UsableIsThere(db: Database, verified: set<nat>, now: int, order: seq<nat>)
    ensures var matched := FirstUsable(db, verified, now, order);
      matched.Some? ==> exists i ::
        && 0 <= i < |order| && order[i] == matched.value && order[i] in verified && order[i] in db.codes
        && !db.codes[order[i]].used && db.codes[order[i]].expires > now
        && (forall j :: 0 <= j < i ==> !(order[j] in verified && order[j] in db.codes && !db.codes[order[j]].used && db.codes[order[j]].expires > now))
    ensures FirstUsable(db, verified, now, order).None? <==>
      forall i :: 0 <= i < |order| ==> !(order[i] in verified && order[i] in db.codes && !db.codes[order[i]].used && db.codes[order[i]].expires > now)
  {
    if order != [] {
      var rest := order[1..];
      UsableIsThere(db, verified, now, rest);
      assert forall i :: 0 <= i < |rest| ==> rest[i] == order[i+1];
      if Usable(db, verified, now, order[0]) {
        assert order[0] in verified;
      } else if FirstUsable(db, verified, now, rest).Some? {
        var i :| 0 <= i < |rest| && rest[i] == FirstUsable(db, verified, now, rest).value && rest[i] in verified && rest[i] in db.codes
          && !db.codes[rest[i]].used && db.codes[rest[i]].expires > now
          && (forall j :: 0 <= j < i ==> !(rest[j] in verified && rest[j] in db.codes && !db.codes[rest[j]].used && db.codes[rest[j]].expires > now));
        assert order[i+1] in verified;
        forall j | 0 <= j < i + 1
          ensures !(order[j] in verified && order[j] in db.codes && !db.codes[order[j]].used && db.codes[order[j]].expires > now)
        {
          assert j > 0 ==> order[j] == rest[j-1];
        }
      }
    }
  }
}
