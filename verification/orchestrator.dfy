/**
 * The scan orchestrator (`run`): picks the profiles to scan, scans each in order,
 * collects every row, then hands the collection to the report builder.
 */
module Orchestrator {
  import opened Options
  import opened IamSnapshot
  import opened ReportRow
  import opened AccountScanner
  import opened ReportBuilder

  /**
   * What each profile's session would return. Building sessions and calling the identity
   * API are outside the model; a profile is all that selects the snapshot.
   */
  type World = Option<string> -> AccountSnapshot

  /** The configured profiles, or the single implicit default profile when there are none. */
  function ProfilesToScan(profiles: seq<string>): (ps: seq<Option<string>>)
    ensures |ps| >= 1
    ensures |profiles| == 0 ==> ps == [None]
    ensures |profiles| > 0 ==> |ps| == |profiles| && forall i :: 0 <= i < |ps| ==> ps[i] == Some(profiles[i])
  {
    if |profiles| == 0 then [None]
    else seq(|profiles|, i requires 0 <= i < |profiles| => Some(profiles[i]))
  }

  /** The labels of the given profiles. */
  function Labels(ps: seq<Option<string>>): set<string> {
    set j | 0 <= j < |ps| :: AccountLabel(ps[j])
  }

  /** Scans the profiles in order and collects their rows one account after another. */
  function ScanAll(ps: seq<Option<string>>, world: World): (rows: seq<Row>)
    ensures forall k :: 0 <= k < |rows| ==> rows[k].account in Labels(ps)
    decreases |ps|
  {
    if |ps| == 0 then []
    else
      var first := ScanAccount(ps[0], world(ps[0]));
      var rest := ScanAll(ps[1..], world);
      var rows := first + rest;
      assert forall k :: 0 <= k < |rows| ==> rows[k].account in Labels(ps) by {
        forall k | 0 <= k < |rows|
          ensures rows[k].account in Labels(ps)
        {
          if k < |first| {
            assert rows[k] == first[k];
            assert rows[k].account == AccountLabel(ps[0]);
          } else {
            assert rows[k] == rest[k - |first|];
            var j :| 0 <= j < |ps[1..]| && AccountLabel(ps[1..][j]) == rows[k].account;
            assert ps[1..][j] == ps[j + 1];
          }
        }
      }
      rows
  }

  /** `run` up to the report: every row collected from every profile to scan. */
  function Run(profiles: seq<string>, world: World): (rows: seq<Row>)
    ensures |profiles| == 0 ==> rows == ScanAccount(None, world(None))
    ensures |profiles| == 0 ==> forall k :: 0 <= k < |rows| ==> rows[k].account == DefaultLabel
    ensures |profiles| > 0 ==> rows == ScanAll(ProfilesToScan(profiles), world)
    ensures forall k :: 0 <= k < |rows| ==> rows[k].account in Labels(ProfilesToScan(profiles))
  {
    var ps := ProfilesToScan(profiles);
    if |profiles| == 0 then
      assert ps[0] == None && ps[1..] == [];
      assert ScanAll(ps, world) == ScanAccount(None, world(None)) + ScanAll([], world);
      ScanAll(ps, world)
    else
      ScanAll(ps, world)
  }

  /** The whole audit: the report `run` writes, or none when no row was collected. */
  function Audit(profiles: seq<string>, world: World): (report: Option<seq<Row>>)
    ensures report.None? <==> Run(profiles, world) == []
    ensures report.Some? ==>
              && Sorted(report.value)
              && multiset(report.value) == multiset(Run(profiles, world))
  {
    BuildReport(Run(profiles, world))
  }

  /** Scanning two runs of profiles one after the other collects the two row sequences in order. */
  lemma {:induction false} ScanAllAppend(a: seq<Option<string>>, b: seq<Option<string>>, world: World)
    ensures ScanAll(a + b, world) == ScanAll(a, world) + ScanAll(b, world)
    decreases |a|
  {
    if |a| == 0 {
      assert a + b == b;
    } else {
      assert (a + b)[0] == a[0];
      assert (a + b)[1..] == a[1..] + b;
      ScanAllAppend(a[1..], b, world);
      var first, rest, tail := ScanAccount(a[0], world(a[0])), ScanAll(a[1..], world), ScanAll(b, world);
      assert first + (rest + tail) == (first + rest) + tail;
    }
  }

  /**
   * Each profile's rows appear in the collection unchanged, as one block, after the rows
   * of the profiles before it, whatever happens in the other accounts.
   */
  lemma {:induction false} AccountRowsKept(ps: seq<Option<string>>, world: World, i: nat)
    requires i < |ps|
    ensures var before := |ScanAll(ps[..i], world)|;
            var mine := ScanAccount(ps[i], world(ps[i]));
            && before + |mine| <= |ScanAll(ps, world)|
            && ScanAll(ps, world)[before..before + |mine|] == mine
  {
    assert ps == ps[..i] + [ps[i]] + ps[i + 1..];
    ScanAllAppend(ps[..i] + [ps[i]], ps[i + 1..], world);
    ScanAllAppend(ps[..i], [ps[i]], world);
    assert [ps[i]][1..] == [];
  }

  /**
   * A profile whose account id cannot be resolved contributes no rows: the collection
   * is what scanning the other profiles alone would give.
   */
  lemma {:induction false} FailedAccountContributesNothing(ps: seq<Option<string>>, world: World, i: nat)
    requires i < |ps|
    requires world(ps[i]).accountId.Failed?
    ensures ScanAll(ps, world) == ScanAll(ps[..i] + ps[i + 1..], world)
  {
    assert ps == ps[..i] + [ps[i]] + ps[i + 1..];
    ScanAllAppend(ps[..i] + [ps[i]], ps[i + 1..], world);
    ScanAllAppend(ps[..i], [ps[i]], world);
    ScanAllAppend(ps[..i], ps[i + 1..], world);
    assert ScanAll([ps[i]], world) == [] by {
      assert [ps[i]][1..] == [];
      assert ScanAccount(ps[i], world(ps[i])) == [];
    }
    var before := ScanAll(ps[..i], world);
    assert before + [] == before;
  }

  /**
   * `run` keeps every configured profile's rows: profile `i`'s rows appear unchanged, as
   * one block, right after the rows of the profiles configured before it.
   */
  lemma {:induction false} RunKeepsEveryProfile(profiles: seq<string>, world: World, i: nat)
    requires i < |profiles|
    ensures var mine := ScanAccount(Some(profiles[i]), world(Some(profiles[i])));
            var before := |ScanAll(ProfilesToScan(profiles)[..i], world)|;
            && before + |mine| <= |Run(profiles, world)|
            && Run(profiles, world)[before..before + |mine|] == mine
  {
    var ps := ProfilesToScan(profiles);
    assert ps[i] == Some(profiles[i]);
    assert Run(profiles, world) == ScanAll(ps, world);
    AccountRowsKept(ps, world, i);
  }
}
