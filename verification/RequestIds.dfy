/** The request ids one endpoint issues, over runs long enough to wrap around. */
module RequestIds {
  import opened Bytes
  import opened Packets
  import opened Proto
  import opened PacketQueue
  import opened Endpoints

  /** The number of different ids: every 32-bit value but 0. */
  const PERIOD := TWO_TO_32 - 1

  /** The k-th id issued after id n. */
  function IdAfter(n: uint32, k: nat): uint32 {
    if k == 0 then n else NextId(IdAfter(n, k - 1))
  }

  /** Counting on by one, modulo the period. */
  lemma NextRemainder(a: nat)
    ensures (a + 1) % 0xFFFF_FFFF == if a % 0xFFFF_FFFF == 0xFFFF_FFFE then 0 else a % 0xFFFF_FFFF + 1
  {
  }

  lemma NextIsPlusOne(n: uint32)
    ensures NextId(n) == if n == 0xFFFF_FFFF then 1 else n + 1
  {
  }

  /** The ids go round and round: 1, 2, ..., 2^32 - 1, 1, ... */
  lemma {:induction false} IdIsCyclic(n: uint32, k: nat)
    requires k >= 1
    ensures IdAfter(n, k) == (n + (k - 1)) % 0xFFFF_FFFF + 1
  {
    if k == 1 {
      assert IdAfter(n, k) == NextId(n);
    } else {
      IdIsCyclic(n, k - 1);
      NextRemainder(n + (k - 2));
      NextIsPlusOne(IdAfter(n, k - 1));
    }
  }

  lemma EqualRemainders(a: nat, b: nat)
    requires a <= b
    ensures a % 0xFFFF_FFFF == b % 0xFFFF_FFFF <==> (b - a) % 0xFFFF_FFFF == 0
  {
  }

  /** Id 0 is never issued, and two ids are equal exactly if a multiple of 2^32 - 1 issues lies between them. */
  lemma {:induction false} IdsRepeatAfterPeriod(n: uint32, i: nat, j: nat)
    requires 1 <= i <= j
    ensures IdAfter(n, i) != 0
    ensures IdAfter(n, i) == IdAfter(n, j) <==> (j - i) % PERIOD == 0
  {
    IdIsCyclic(n, i);
    IdIsCyclic(n, j);
    EqualRemainders(n + (i - 1), n + (j - 1));
    assert n + (j - 1) - (n + (i - 1)) == j - i;
  }

  /** The packets carry the ids of the issues listed in ks, in the order of issue, all among the first `count`. */
  predicate Issued(n: uint32, count: nat, ks: seq<nat>, packets: seq<Packet>) {
    && |ks| == |packets|
    && (forall i :: 0 <= i < |ks| ==> 1 <= ks[i] <= count && packets[i].rrId == IdAfter(n, ks[i]))
    && (forall i, j :: 0 <= i < j < |ks| ==> ks[i] < ks[j])
  }

  lemma {:induction false} IssueOneMore(n: uint32, count: nat, ks: seq<nat>, packets: seq<Packet>, p: Packet)
    requires Issued(n, count, ks, packets)
    ensures Issued(n, count + 1, ks, packets)
    ensures p.rrId == NextId(IdAfter(n, count)) ==> Issued(n, count + 1, ks + [count + 1], packets + [p])
  {
  }

  /** No packet carries id 0, and two carry the same id exactly if a multiple of 2^32 - 1 issues separates them. */
  predicate RepeatsAfterPeriods(ids: seq<uint32>, ks: seq<nat>) {
    && |ids| == |ks|
    && (forall i :: 0 <= i < |ids| ==> ids[i] != 0)
    && (forall i, j :: 0 <= i < j < |ids| ==> (ids[i] == ids[j] <==> (ks[j] - ks[i]) % PERIOD == 0))
  }

  function IdsOf(packets: seq<Packet>): seq<uint32> {
    seq(|packets|, i requires 0 <= i < |packets| => packets[i].rrId)
  }

  lemma {:induction false} IssuedIdsRepeat(n: uint32, count: nat, ks: seq<nat>, packets: seq<Packet>)
    requires Issued(n, count, ks, packets)
    ensures RepeatsAfterPeriods(IdsOf(packets), ks)
  {
    forall i | 0 <= i < |packets| ensures packets[i].rrId != 0 {
      IdsRepeatAfterPeriod(n, ks[i], ks[i]);
    }
    forall i, j | 0 <= i < j < |packets|
      ensures packets[i].rrId == packets[j].rrId <==> (ks[j] - ks[i]) % PERIOD == 0
    {
      IdsRepeatAfterPeriod(n, ks[i], ks[j]);
    }
  }

  predicate AllDiffer(ids: seq<uint32>) {
    && (forall i :: 0 <= i < |ids| ==> ids[i] != 0)
    && (forall i, j :: 0 <= i < j < |ids| ==> ids[i] != ids[j])
  }

  lemma SmallMultiple(d: int)
    requires 0 < d < PERIOD
    ensures d % PERIOD != 0
  {
  }

  /** Ids issued within one period differ. */
  lemma {:induction false} OnePeriodDiffers(ids: seq<uint32>, ks: seq<nat>, count: nat)
    requires RepeatsAfterPeriods(ids, ks) && count <= PERIOD
    requires forall i :: 0 <= i < |ks| ==> 1 <= ks[i] <= count
    requires forall i, j :: 0 <= i < j < |ks| ==> ks[i] < ks[j]
    ensures AllDiffer(ids)
  {
    forall i, j | 0 <= i < j < |ids| ensures ids[i] != ids[j] {
      SmallMultiple(ks[j] - ks[i]);
    }
  }

  // ----- which issue each accepted packet got its id from -----

  /** How many ids have been issued, and at which issue each accepted packet got its own. */
  datatype Log = Log(count: nat, ks: seq<nat>)

  /** A call that the protocol version allows takes an id, whether it is accepted or not; nothing else does. */
  predicate TakesId(e: Endpoint, api: Api) {
    api.Call? && Allowed(e, api.minVersion)
  }

  function LogApi(limits: Limits, e: Endpoint, api: Api, log: Log): Log {
    if !TakesId(e, api) then log
    else
      var k := log.count + 1;
      Log(k, if Apply(limits, e, api).accepted == [] then log.ks else log.ks + [k])
  }

  function LogAll(limits: Limits, e: Endpoint, apis: seq<Api>, log: Log): Log {
    if apis == [] then log
    else
      var k := |apis| - 1;
      LogApi(limits, ApplyAll(limits, e, apis[..k]).e, apis[k], LogAll(limits, e, apis[..k], log))
  }

  /** The log tells how the endpoint, which began with id n, came to its present id and its accepted packets to
      theirs. */
  predicate Logged(n: uint32, e: Endpoint, log: Log, accepted: seq<Packet>) {
    e.nextRrId == IdAfter(n, log.count) && Issued(n, log.count, log.ks, accepted)
  }

  lemma {:induction false} ApplyLogs(limits: Limits, n: uint32, e: Endpoint, api: Api, log: Log, accepted: seq<Packet>)
    requires Logged(n, e, log, accepted)
    ensures var f := Apply(limits, e, api); Logged(n, f.e, LogApi(limits, e, api, log), accepted + f.accepted)
  {
    var f := Apply(limits, e, api);
    if TakesId(e, api) {
      assert IdAfter(n, log.count + 1) == NextId(IdAfter(n, log.count));
      IssueOneMore(n, log.count, log.ks, accepted, Stamp(e, api));
      if f.accepted != [] {
        IssueOneMore(n, log.count, log.ks, accepted, f.accepted[0]);
        assert f.accepted == [f.accepted[0]];
      }
    }
    assert accepted + [] == accepted;
  }

  lemma {:induction false} ApplyAllLogs(limits: Limits, n: uint32, e: Endpoint, apis: seq<Api>, log: Log,
                                        accepted: seq<Packet>)
    requires Logged(n, e, log, accepted)
    ensures var f := ApplyAll(limits, e, apis); Logged(n, f.e, LogAll(limits, e, apis, log), accepted + f.accepted)
  {
    if apis == [] {
      assert accepted + [] == accepted;
    } else {
      var k := |apis| - 1;
      ApplyAllLogs(limits, n, e, apis[..k], log, accepted);
      var front := ApplyAll(limits, e, apis[..k]);
      ApplyLogs(limits, n, front.e, apis[k], LogAll(limits, e, apis[..k], log), accepted + front.accepted);
      var last := Apply(limits, front.e, apis[k]);
      assert accepted + front.accepted + last.accepted == accepted + (front.accepted + last.accepted);
    }
  }

  /** The ids of the packets accepted over any run of program operations, however long: never 0, and equal exactly
      if a multiple of 2^32 - 1 issues separates them; so they all differ if the run issues no more ids than that. */
  lemma {:induction false} AcceptedIdsRepeat(limits: Limits, e: Endpoint, apis: seq<Api>)
    ensures var log, ids := LogAll(limits, e, apis, Log(0, [])), IdsOf(ApplyAll(limits, e, apis).accepted);
            && RepeatsAfterPeriods(ids, log.ks)
            && (log.count <= PERIOD ==> AllDiffer(ids))
  {
    var log, accepted := LogAll(limits, e, apis, Log(0, [])), ApplyAll(limits, e, apis).accepted;
    ApplyAllLogs(limits, e.nextRrId, e, apis, Log(0, []), []);
    assert [] + accepted == accepted;
    IssuedIdsRepeat(e.nextRrId, log.count, log.ks, accepted);
    if log.count <= PERIOD {
      OnePeriodDiffers(IdsOf(accepted), log.ks, log.count);
    }
  }

  const EMPTY_CALL: Api := Call(0, Data([]), None, 0)
  const REFUSED_CALL: Api := Call(0, NullData(MAX_DATA_SIZE + 1), None, 0)

  /** A call that is queued, then k calls that are refused after taking an id. */
  function OneThenRefused(k: nat): seq<Api> {
    [EMPTY_CALL] + seq(k, _ => REFUSED_CALL)
  }

  lemma {:induction false} RefusedCallsTakeIds(limits: Limits, e: Endpoint, k: nat)
    requires |e.outQueue| < limits.queueSize
    ensures var f := ApplyAll(limits, e, OneThenRefused(k));
            && |f.accepted| == 1 && f.accepted[0].rrId == IdAfter(e.nextRrId, 1)
            && f.e.nextRrId == IdAfter(e.nextRrId, k + 1) && |f.e.outQueue| == |e.outQueue| + 1
            && f.accepted[0].version == f.e.version == e.version
  {
    var apis := OneThenRefused(k);
    if k == 0 {
      assert apis == [EMPTY_CALL] && apis[..0] == [];
      assert ApplyAll(limits, e, apis[..0]) == Effect(e, [], []);
      assert IdAfter(e.nextRrId, 1) == NextId(IdAfter(e.nextRrId, 0));
    } else {
      RefusedCallsTakeIds(limits, e, k - 1);
      assert apis[..k] == OneThenRefused(k - 1) && apis[k] == REFUSED_CALL;
    }
  }

  lemma {:induction false} CallOnceMore(limits: Limits, e: Endpoint, front: seq<Api>)
    requires |ApplyAll(limits, e, front).e.outQueue| < limits.queueSize
    ensures var f, g := ApplyAll(limits, e, front), ApplyAll(limits, e, front + [EMPTY_CALL]);
            && |g.accepted| == |f.accepted| + 1 && f.accepted <= g.accepted
            && g.accepted[|f.accepted|].rrId == NextId(f.e.nextRrId) && g.accepted[|f.accepted|].version == f.e.version
  {
    assert (front + [EMPTY_CALL])[..|front|] == front;
  }

  lemma {:induction false} IdsMeetAfter(limits: Limits, e: Endpoint, k: nat) returns (apis: seq<Api>)
    requires |e.outQueue| + 2 <= limits.queueSize && k >= 1 && k % PERIOD == 0
    ensures |apis| == k + 1
    ensures var accepted := ApplyAll(limits, e, apis).accepted;
            && |accepted| == 2 && accepted[0].rrId == accepted[1].rrId
            && accepted[0].version == accepted[1].version == e.version
  {
    var front := OneThenRefused(k - 1);
    apis := front + [EMPTY_CALL];
    RefusedCallsTakeIds(limits, e, k - 1);
    CallOnceMore(limits, e, front);
    assert IdAfter(e.nextRrId, k + 1) == NextId(IdAfter(e.nextRrId, k));
    IdsRepeatAfterPeriod(e.nextRrId, 1, k + 1);
  }

  /** The limit on the run is needed: after 2^32 - 2 refused calls, which take ids too, the id of a packet that is
      still queued is issued again, and two queued packets share it. */
  lemma {:induction false} IdsMeetAfterRefusals(limits: Limits, e: Endpoint) returns (apis: seq<Api>)
    requires |e.outQueue| + 2 <= limits.queueSize
    ensures |apis| == PERIOD + 1
    ensures var accepted := ApplyAll(limits, e, apis).accepted;
            && |accepted| == 2 && accepted[0].rrId == accepted[1].rrId
            && accepted[0].version == accepted[1].version == e.version
  {
    apis := IdsMeetAfter(limits, e, PERIOD);
  }

  /** In a queue of packets with different ids, popping an id leaves no other packet with that id. */
  lemma PopByIdIsUnique(q: seq<PacketMem>, rrId: uint32)
    requires rrId != 0 && forall i, j :: 0 <= i < j < |q| ==> RrIdOf(q[i]) != RrIdOf(q[j])
    ensures var rest := Without(q, FirstMatch(q, rrId)); forall i :: 0 <= i < |rest| ==> RrIdOf(rest[i]) != rrId
  {
  }
}
