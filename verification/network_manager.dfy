/** NetworkManager: the four Ethernet ports and the choice between normal
    mode (each port gets its user settings) and self-search mode (each port
    polls its cable, then tries the candidate configurations in order until
    one answers a ping). The cable probe and the ping are hardware and
    network queries; the model receives their answers as oracle sequences,
    the i-th element answering the i-th query, a missing answer reading as
    "no". */
module NetworkManager {
  import opened EthDevice

  /** `maxAttempts`: the cable is re-probed at most this many times. */
  const MAX_ATTEMPTS: nat := 5
  /** The pause before each re-probe, in seconds. */
  const RETRY_SECONDS: nat := 12

  /** The answer to the i-th query of an oracle. */
  predicate Answer(answers: seq<bool>, i: nat)
  {
    i < |answers| && answers[i]
  }

  /** Index of the first "yes" among queries from..n-1, or n when none. */
  function FirstYesFrom(answers: seq<bool>, from: nat, n: nat): (k: nat)
    requires from <= n
    ensures from <= k <= n
    ensures k < n ==> Answer(answers, k)
    ensures forall i :: from <= i < k ==> !Answer(answers, i)
    decreases n - from
  {
    if from == n then n
    else if Answer(answers, from) then from
    else FirstYesFrom(answers, from + 1, n)
  }

  /** Index of the first "yes" among the first n queries, or n when none. */
  function FirstYes(answers: seq<bool>, n: nat): (k: nat)
    ensures k <= n
    ensures k < n ==> Answer(answers, k)
    ensures forall i :: 0 <= i < k ==> !Answer(answers, i)
  {
    FirstYesFrom(answers, 0, n)
  }

  /** The number of 12-second pauses of the cable-poll loop: one per "no"
      before the first "yes", at most MAX_ATTEMPTS. */
  function PollSleeps(cable: seq<bool>): nat
  {
    FirstYes(cable, MAX_ATTEMPTS)
  }

  /** The probe after the loop decides: it is query number sleeps + 1, since
      the loop queried once per pause plus once to stop. */
  predicate LinkUp(cable: seq<bool>)
  {
    Answer(cable, PollSleeps(cable) + 1)
  }

  /** The addresses pinged for the first n candidates, in order. */
  function PingTargets(configs: seq<SelfSearchConfig>, n: nat): (ips: seq<string>)
    requires n <= |configs|
    ensures |ips| == n && forall i :: 0 <= i < n ==> ips[i] == configs[i].ipToPing
  {
    if n == 0 then [] else PingTargets(configs, n - 1) + [configs[n - 1].ipToPing]
  }

  /** What one device's self-search amounts to: the pauses taken, how many
      candidates were applied (each one pinged once), whether one answered,
      and the addressing the device is left with. */
  datatype SearchOutcome = SearchOutcome(sleeps: nat, probes: nat, committed: bool, final: Addressing)

  /** runSelfSearchForDevice as a function of the oracles: no link, nothing
      applied; otherwise candidates up to and including the first one whose
      ping answers, or all of them. The device keeps the last candidate
      applied. */
  function SelfSearch(start: Addressing, configs: seq<SelfSearchConfig>,
                      cable: seq<bool>, pings: seq<bool>): SearchOutcome
  {
    var sleeps := PollSleeps(cable);
    if !LinkUp(cable) then SearchOutcome(sleeps, 0, false, start)
    else
      var k := FirstYes(pings, |configs|);
      var probes := if k < |configs| then k + 1 else |configs|;
      SearchOutcome(sleeps, probes, k < |configs|,
                    if probes == 0 then start else FromCandidate(configs[probes - 1]))
  }

  /** The poll loop pauses at most five times, twelve seconds each: about a
      minute. */
  lemma SleepsBounded(start: Addressing, configs: seq<SelfSearchConfig>, cable: seq<bool>, pings: seq<bool>)
    ensures SelfSearch(start, configs, cable, pings).sleeps <= MAX_ATTEMPTS
    ensures SelfSearch(start, configs, cable, pings).sleeps * RETRY_SECONDS <= 60
  {
  }

  /** A cable that answers at once costs no pause; one that never answers
      costs all five. */
  lemma SleepsExtremes(start: Addressing, configs: seq<SelfSearchConfig>, cable: seq<bool>, pings: seq<bool>)
    ensures Answer(cable, 0) ==> SelfSearch(start, configs, cable, pings).sleeps == 0
    ensures (forall i :: 0 <= i < |cable| ==> !cable[i]) ==>
              SelfSearch(start, configs, cable, pings).sleeps == MAX_ATTEMPTS &&
              SelfSearch(start, configs, cable, pings).probes == 0
  {
  }

  /** Still no link after polling: no candidate applied, no ping sent, the
      device untouched. */
  lemma NoLinkNoProbe(start: Addressing, configs: seq<SelfSearchConfig>, cable: seq<bool>, pings: seq<bool>)
    requires !LinkUp(cable)
    ensures var out := SelfSearch(start, configs, cable, pings);
            out.probes == 0 && !out.committed && out.final == start
  {
  }

  /** The first candidate whose ping answers is the one kept: k+1 candidates
      applied and pinged, and the device holds candidate k. */
  lemma FirstSuccessCommits(start: Addressing, configs: seq<SelfSearchConfig>,
                            cable: seq<bool>, pings: seq<bool>, k: nat)
    requires LinkUp(cable) && k < |configs| && Answer(pings, k)
    requires forall i :: 0 <= i < k ==> !Answer(pings, i)
    ensures var out := SelfSearch(start, configs, cable, pings);
            out.committed && out.probes == k + 1 && out.final == FromCandidate(configs[k])
  {
    assert FirstYes(pings, |configs|) == k;
  }

  /** Every ping fails: every candidate was applied, none is committed, and
      the last one stays on the device (there is no rollback); an empty list
      leaves the device as it was. */
  lemma AllFailKeepsLast(start: Addressing, configs: seq<SelfSearchConfig>,
                         cable: seq<bool>, pings: seq<bool>)
    requires LinkUp(cable)
    requires forall i :: 0 <= i < |configs| ==> !Answer(pings, i)
    ensures var out := SelfSearch(start, configs, cable, pings);
            !out.committed && out.probes == |configs| &&
            out.final == (if |configs| == 0 then start else FromCandidate(configs[|configs| - 1]))
  {
  }

  /** A configuration is committed exactly when the link came up and some
      candidate's ping answered. */
  lemma CommittedIff(start: Addressing, configs: seq<SelfSearchConfig>, cable: seq<bool>, pings: seq<bool>)
    ensures SelfSearch(start, configs, cable, pings).committed <==>
            LinkUp(cable) && exists i :: 0 <= i < |configs| && Answer(pings, i)
  {
    if LinkUp(cable) && exists i :: 0 <= i < |configs| && Answer(pings, i) {
      var i :| 0 <= i < |configs| && Answer(pings, i);
      assert FirstYes(pings, |configs|) <= i;
    }
  }

  /** Three candidates, the link up at once, the first ping fails and the
      second answers: two candidates applied, the second kept. */
  lemma SecondOfThreeAnswers(start: Addressing, c0: SelfSearchConfig, c1: SelfSearchConfig,
                             c2: SelfSearchConfig)
    ensures var out := SelfSearch(start, [c0, c1, c2], [true, true], [false, true]);
            out.sleeps == 0 && out.probes == 2 && out.committed && out.final == FromCandidate(c1)
  {
    FirstSuccessCommits(start, [c0, c1, c2], [true, true], [false, true], 1);
  }

  /** The four ports and the mode the settings selected. */
  class Manager {
    const devices: seq<EthDevice>
    var enableSelfSearch: bool
    var selfSearchConfigs: seq<SelfSearchConfig>

    /** Four distinct device objects. */
    ghost predicate Valid()
    {
      |devices| == 4 && forall i, j :: 0 <= i < j < 4 ==> devices[i] != devices[j]
    }

    /** The ports are eth1..eth4 in slots 0..3, each with empty addressing and
        role SOURCE1; normal mode. */
    constructor ()
      ensures Valid() && fresh(devices[0]) && fresh(devices[1]) && fresh(devices[2]) && fresh(devices[3])
      ensures devices[0].name == "eth1" && devices[1].name == "eth2"
      ensures devices[2].name == "eth3" && devices[3].name == "eth4"
      ensures forall i :: 0 <= i < 4 ==> devices[i].Settings() == Addressing("", "", "", "", "", "", Source1)
      ensures !enableSelfSearch && selfSearchConfigs == []
    {
      var d1 := new EthDevice("eth1");
      var d2 := new EthDevice("eth2");
      var d3 := new EthDevice("eth3");
      var d4 := new EthDevice("eth4");
      devices := [d1, d2, d3, d4];
      enableSelfSearch := false;
      selfSearchConfigs := [];
    }

    /** runSelfSearchForDevice: poll the cable (at most five pauses), give up
        if it is still down, otherwise apply each candidate and ping its
        address until a ping answers. Returns the pauses taken, the
        addresses pinged in order and whether a candidate was committed. */
    method RunSelfSearchForDevice(device: EthDevice, configs: seq<SelfSearchConfig>,
                                  cable: seq<bool>, pings: seq<bool>)
      returns (sleeps: nat, pinged: seq<string>, configApplied: bool)
      modifies device
      ensures var out := SelfSearch(old(device.Settings()), configs, cable, pings);
              sleeps == out.sleeps && configApplied == out.committed &&
              pinged == PingTargets(configs, out.probes) && device.Settings() == out.final
      ensures device.name == old(device.name)
    {
      var query := 0;  // cable queries so far
      var attempts := 0;
      var connected := Answer(cable, query);
      query := query + 1;
      while !connected && attempts < MAX_ATTEMPTS
        invariant attempts <= MAX_ATTEMPTS && query == attempts + 1
        invariant connected == Answer(cable, attempts)
        invariant forall i :: 0 <= i < attempts ==> !Answer(cable, i)
        decreases MAX_ATTEMPTS - attempts
      {
        attempts := attempts + 1;
        connected := Answer(cable, query);
        query := query + 1;
      }
      sleeps := attempts;
      assert sleeps == PollSleeps(cable);
      pinged := [];
      configApplied := false;
      if !Answer(cable, query) {
        return;
      }

      ghost var start := device.Settings();
      var i := 0;
      while i < |configs|
        invariant 0 <= i <= |configs| && !configApplied
        invariant pinged == PingTargets(configs, i)
        invariant forall j :: 0 <= j < i ==> !Answer(pings, j)
        invariant device.Settings() == if i == 0 then start else FromCandidate(configs[i - 1])
        invariant device.name == old(device.name)
      {
        var programmed := device.ApplySelfSearchConfig(configs[i]);
        pinged := pinged + [configs[i].ipToPing];
        if Answer(pings, i) {
          configApplied := true;
          FirstSuccessCommits(start, configs, cable, pings, i);
          return;
        }
        i := i + 1;
      }
      AllFailKeepsLast(start, configs, cable, pings);
    }

    /** applySettings: in normal mode every port gets its settings applied
        (the kernel requests are returned per port) and the system routes are
        set; in self-search mode the self-search runs for every port with
        that port's oracles, and the ports end up as it leaves them. */
    method ApplySettings(cable: seq<seq<bool>>, pings: seq<seq<bool>>)
      returns (requests: seq<seq<LinkRequest>>, systemRoutesSet: bool, outcomes: seq<SearchOutcome>)
      requires Valid() && |cable| == 4 && |pings| == 4
      modifies devices
      ensures systemRoutesSet <==> !enableSelfSearch
      ensures !enableSelfSearch ==>
                |requests| == 4 && outcomes == [] &&
                (forall i :: 0 <= i < 4 ==> NormalModeRequests(requests[i])) &&
                forall i :: 0 <= i < 4 ==> devices[i].Settings() == old(devices[i].Settings())
      ensures enableSelfSearch ==>
                requests == [] && |outcomes| == 4 &&
                forall i :: 0 <= i < 4 ==>
                  outcomes[i] == SelfSearch(old(devices[i].Settings()), selfSearchConfigs, cable[i], pings[i]) &&
                  devices[i].Settings() == outcomes[i].final
      ensures forall i :: 0 <= i < 4 ==> devices[i].name == old(devices[i].name)
    {
      if !enableSelfSearch {
        requests := ApplyDeviceSettings();
        outcomes := [];
        systemRoutesSet := true;
      } else {
        requests := [];
        outcomes := SelfSearchAll(cable, pings);
        systemRoutesSet := false;
      }
    }

    /** Normal mode: the kernel requests of each port in turn; no device
        field changes. */
    method ApplyDeviceSettings() returns (requests: seq<seq<LinkRequest>>)
      requires Valid()
      ensures |requests| == 4 && forall i :: 0 <= i < 4 ==> NormalModeRequests(requests[i])
    {
      requests := [];
      for i := 0 to 4
        invariant |requests| == i
        invariant forall j :: 0 <= j < i ==> NormalModeRequests(requests[j])
      {
        var r := devices[i].ApplySettings();
        requests := requests + [r];
      }
    }

    /** Self-search mode: each port in turn runs the self-search with its
        own oracles and ends up as the search leaves it. */
    method SelfSearchAll(cable: seq<seq<bool>>, pings: seq<seq<bool>>) returns (outcomes: seq<SearchOutcome>)
      requires Valid() && |cable| == 4 && |pings| == 4
      modifies devices
      ensures |outcomes| == 4
      ensures forall i :: 0 <= i < 4 ==>
                outcomes[i] == SelfSearch(old(devices[i].Settings()), selfSearchConfigs, cable[i], pings[i]) &&
                devices[i].Settings() == outcomes[i].final
      ensures forall i :: 0 <= i < 4 ==> devices[i].name == old(devices[i].name)
    {
      outcomes := [];
      for i := 0 to 4
        invariant |outcomes| == i
        invariant forall j :: 0 <= j < i ==>
                    outcomes[j] == SelfSearch(old(devices[j].Settings()), selfSearchConfigs, cable[j], pings[j]) &&
                    devices[j].Settings() == outcomes[j].final
        invariant forall j :: i <= j < 4 ==> devices[j].Settings() == old(devices[j].Settings())
        invariant forall j :: 0 <= j < 4 ==> devices[j].name == old(devices[j].name)
      {
        var before := devices[i].Settings();
        var sleeps, pinged, applied := RunSelfSearchForDevice(devices[i], selfSearchConfigs, cable[i], pings[i]);
        var out := SelfSearch(before, selfSearchConfigs, cable[i], pings[i]);
        outcomes := outcomes + [out];
      }
    }
  }
}
