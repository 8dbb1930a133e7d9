/** Management of a multi-key channel (ManageMultiKeys in controller/channel.go)
    over its real storage: one text column of keys and three sparse maps by key
    index, saved through Channel.Update (model/channel.go). Each action is proved
    to be the plain operation on a list of records; a deletion if and only if the
    keys it leaves survive being stored as lines. */
module MultiKey {
  import opened Common
  import opened ChannelKeys
  import opened Lists
  import opened Text

  const ENABLED := 1
  const MANUALLY_DISABLED := 2
  const AUTO_DISABLED := 3

  datatype Record = Record(key: string, status: int, time: Option<int>, reason: Option<string>)

  type Statuses = map<int, int>
  type Times = map<int, int>
  type Reasons = map<int, string>

  function Lookup<V>(m: map<int, V>, i: int): Option<V> {
    if i in m then Some(m[i]) else None
  }

  function StatusAt(statuses: Statuses, i: int): int {
    if i in statuses then statuses[i] else ENABLED
  }

  /** The list that the column and the maps stand for. */
  function RecordsOf(keys: seq<string>, statuses: Statuses, times: Times, reasons: Reasons): (r: seq<Record>)
    ensures |r| == |keys|
  {
    seq(|keys|, i requires 0 <= i < |keys| => Record(keys[i], StatusAt(statuses, i), Lookup(times, i), Lookup(reasons, i)))
  }

  /** Maps as a deletion rebuilds them: indices in range, enabled keys not stored. */
  predicate InRange(n: nat, statuses: Statuses, times: Times, reasons: Reasons) {
    && (forall i :: i in statuses ==> 0 <= i < n && statuses[i] != ENABLED)
    && (forall i :: i in times ==> 0 <= i < n)
    && (forall i :: i in reasons ==> 0 <= i < n)
  }

  /** Maps without stray entries: indices in range, enabled keys not stored, and
      times and reasons only for disabled keys. No action needs this; every action
      keeps it. */
  predicate Sparse(n: nat, statuses: Statuses, times: Times, reasons: Reasons) {
    && (forall i :: i in statuses ==> 0 <= i < n && statuses[i] != ENABLED)
    && (forall i :: i in times ==> i in statuses) && (forall i :: i in reasons ==> i in statuses)
  }

  function KeysOf(records: seq<Record>): (keys: seq<string>) {
    seq(|records|, i requires 0 <= i < |records| => records[i].key)
  }

  lemma RecordsSnoc(keys: seq<string>, statuses: Statuses, times: Times, reasons: Reasons,
                    key: string, statuses': Statuses, times': Times, reasons': Reasons)
    requires forall i :: 0 <= i < |keys| ==>
               StatusAt(statuses', i) == StatusAt(statuses, i) && Lookup(times', i) == Lookup(times, i) && Lookup(reasons', i) == Lookup(reasons, i)
    ensures RecordsOf(keys + [key], statuses', times', reasons')
         == RecordsOf(keys, statuses, times, reasons) + [Record(key, StatusAt(statuses', |keys|), Lookup(times', |keys|), Lookup(reasons', |keys|))]
  {
  }

  lemma KeysOfRecords(keys: seq<string>, statuses: Statuses, times: Times, reasons: Reasons)
    ensures KeysOf(RecordsOf(keys, statuses, times, reasons)) == keys
  {
  }

  // ---- The loops that rebuild the list ----------------------------------------

  /** One entry as the loops copy it to its new place. */
  function Put<V>(m: map<int, V>, at: int, entry: Option<V>): map<int, V> {
    if entry.Some? then m[at := entry.value] else m
  }

  lemma CopyEntry(keys: seq<string>, statuses: Statuses, times: Times, reasons: Reasons, record: Record)
    requires InRange(|keys|, statuses, times, reasons)
    ensures var statuses' := if record.status == ENABLED then statuses else statuses[|keys| := record.status];
            var times', reasons' := Put(times, |keys|, record.time), Put(reasons, |keys|, record.reason);
            && InRange(|keys| + 1, statuses', times', reasons')
            && RecordsOf(keys + [record.key], statuses', times', reasons') == RecordsOf(keys, statuses, times, reasons) + [record]
  {
    var statuses' := if record.status == ENABLED then statuses else statuses[|keys| := record.status];
    RecordsSnoc(keys, statuses, times, reasons, record.key, statuses', Put(times, |keys|, record.time), Put(reasons, |keys|, record.reason));
  }

  /** A record without what strays beside an enabled key. */
  function Settled(r: Record): Record {
    if r.status == ENABLED then r.(time := None, reason := None) else r
  }

  function AllSettled(records: seq<Record>): (r: seq<Record>) {
    seq(|records|, i requires 0 <= i < |records| => Settled(records[i]))
  }

  /** Rebuilt maps are sparse if and only if nothing strays beside an enabled key. */
  lemma SparseIff(keys: seq<string>, statuses: Statuses, times: Times, reasons: Reasons)
    requires InRange(|keys|, statuses, times, reasons)
    ensures var records := RecordsOf(keys, statuses, times, reasons);
      Sparse(|keys|, statuses, times, reasons) <==> forall i :: 0 <= i < |records| ==> Settled(records[i]) == records[i]
  {
    var records := RecordsOf(keys, statuses, times, reasons);
    if forall i :: 0 <= i < |records| ==> Settled(records[i]) == records[i] {
      forall i | i in times || i in reasons ensures i in statuses {
        assert Settled(records[i]) == records[i];
      }
    }
  }

  lemma SparseIsInRange(n: nat, statuses: Statuses, times: Times, reasons: Reasons)
    requires Sparse(n, statuses, times, reasons)
    ensures InRange(n, statuses, times, reasons)
  {
  }

  /** Deleting a record keeps maps sparse. */
  lemma WithoutKeepsSparse(keys: seq<string>, statuses: Statuses, times: Times, reasons: Reasons, at: nat,
                           rest: seq<string>, statuses': Statuses, times': Times, reasons': Reasons)
    requires Sparse(|keys|, statuses, times, reasons) && InRange(|rest|, statuses', times', reasons')
    requires RecordsOf(rest, statuses', times', reasons') == Without(RecordsOf(keys, statuses, times, reasons), at)
    ensures Sparse(|rest|, statuses', times', reasons')
  {
    SparseIsInRange(|keys|, statuses, times, reasons);
    SparseIff(keys, statuses, times, reasons);
    SparseIff(rest, statuses', times', reasons');
  }

  /** The list without its element at one position, if it has that position. */
  function Without<T>(xs: seq<T>, at: nat): (r: seq<T>) {
    if at < |xs| then xs[..at] + xs[at + 1..] else xs
  }

  lemma WithoutSnoc<T>(xs: seq<T>, last: T, at: nat)
    ensures Without(xs + [last], at) == (if at == |xs| then xs else Without(xs, at) + [last])
  {
  }

  /** One turn of that loop: the record at an old index is copied behind the others. */
  method CopyRecord(key: string, record: Record, remaining: seq<string>, statuses: Statuses, times: Times, reasons: Reasons)
    returns (newStatuses: Statuses, newTimes: Times, newReasons: Reasons)
    requires record.key == key && InRange(|remaining|, statuses, times, reasons)
    ensures InRange(|remaining| + 1, newStatuses, newTimes, newReasons)
    ensures RecordsOf(remaining + [key], newStatuses, newTimes, newReasons) == RecordsOf(remaining, statuses, times, reasons) + [record]
  {
    CopyEntry(remaining, statuses, times, reasons, record);
    newStatuses, newTimes, newReasons := statuses, times, reasons;
    if record.status != ENABLED {
      newStatuses := newStatuses[|remaining| := record.status];
    }
    if record.time.Some? {
      newTimes := newTimes[|remaining| := record.time.value];
    }
    if record.reason.Some? {
      newReasons := newReasons[|remaining| := record.reason.value];
    }
  }

  /** The loop of delete_key. */
  method WithoutIndex(keys: seq<string>, statuses: Statuses, times: Times, reasons: Reasons, at: nat)
    returns (remaining: seq<string>, newStatuses: Statuses, newTimes: Times, newReasons: Reasons)
    ensures InRange(|remaining|, newStatuses, newTimes, newReasons)
    ensures RecordsOf(remaining, newStatuses, newTimes, newReasons) == Without(RecordsOf(keys, statuses, times, reasons), at)
  {
    ghost var before := RecordsOf(keys, statuses, times, reasons);
    remaining, newStatuses, newTimes, newReasons := [], map[], map[], map[];
    ghost var done: seq<Record> := [];
    for i := 0 to |keys|
      invariant InRange(|remaining|, newStatuses, newTimes, newReasons) && done == before[..i]
      invariant RecordsOf(remaining, newStatuses, newTimes, newReasons) == Without(done, at)
    {
      WithoutSnoc(done, before[i], at);
      done := done + [before[i]];
      if i == at { continue; }
      newStatuses, newTimes, newReasons :=
        CopyRecord(keys[i], Record(keys[i], StatusAt(statuses, i), Lookup(times, i), Lookup(reasons, i)), remaining, newStatuses, newTimes, newReasons);
      remaining := remaining + [keys[i]];
    }
    assert before[..|keys|] == before;
  }

  lemma AllSettledSnoc(records: seq<Record>, last: Record)
    ensures AllSettled(records + [last]) == AllSettled(records) + [Settled(last)]
  {
  }

  lemma SettledIsSparse(keys: seq<string>, statuses: Statuses, times: Times, reasons: Reasons, records: seq<Record>)
    requires InRange(|keys|, statuses, times, reasons) && RecordsOf(keys, statuses, times, reasons) == AllSettled(records)
    ensures Sparse(|keys|, statuses, times, reasons)
  {
    SparseIff(keys, statuses, times, reasons);
  }

  /** Deleting strips no time or reason if and only if none strays beside an
      enabled key. */
  lemma AllSettledIff(records: seq<Record>)
    ensures AllSettled(records) == records <==> forall r :: r in records && r.status == ENABLED ==> r.time.None? && r.reason.None?
  {
    if AllSettled(records) == records {
      forall r | r in records && r.status == ENABLED ensures r.time.None? && r.reason.None? {
        var i :| 0 <= i < |records| && records[i] == r;
        assert AllSettled(records)[i] == records[i];
      }
    }
  }

  predicate Kept(r: Record) { r.status != AUTO_DISABLED }

  /** The loop of delete_disabled_keys: times and reasons are copied only for keys
      that are not enabled. */
  method WithoutAutoDisabled(keys: seq<string>, statuses: Statuses, times: Times, reasons: Reasons)
    returns (remaining: seq<string>, newStatuses: Statuses, newTimes: Times, newReasons: Reasons, deletedCount: nat)
    ensures InRange(|remaining|, newStatuses, newTimes, newReasons)
    ensures RecordsOf(remaining, newStatuses, newTimes, newReasons) == AllSettled(Filter(RecordsOf(keys, statuses, times, reasons), Kept))
    ensures deletedCount == |keys| - |remaining|
  {
    ghost var before := RecordsOf(keys, statuses, times, reasons);
    remaining, newStatuses, newTimes, newReasons, deletedCount := [], map[], map[], map[], 0;
    ghost var done: seq<Record>, kept: seq<Record> := [], [];
    for i := 0 to |keys|
      invariant deletedCount + |remaining| == i && InRange(|remaining|, newStatuses, newTimes, newReasons)
      invariant done == before[..i] && kept == Filter(done, Kept)
      invariant RecordsOf(remaining, newStatuses, newTimes, newReasons) == AllSettled(kept)
    {
      FilterSnoc(done, before[i], Kept);
      done := done + [before[i]];
      var status := StatusAt(statuses, i);
      if status == AUTO_DISABLED {
        deletedCount := deletedCount + 1;
      } else {
        AllSettledSnoc(kept, before[i]);
        kept := kept + [before[i]];
        var copied := if status != ENABLED then Record(keys[i], status, Lookup(times, i), Lookup(reasons, i)) else Record(keys[i], ENABLED, None, None);
        newStatuses, newTimes, newReasons := CopyRecord(keys[i], copied, remaining, newStatuses, newTimes, newReasons);
        remaining := remaining + [keys[i]];
      }
    }
    assert before[..|keys|] == before;
  }

  predicate IsEnabled(r: Record) { r.status == ENABLED }

  /** How many of the first n keys are enabled. */
  function EnabledCount(statuses: Statuses, n: nat): (count: nat) {
    if n == 0 then 0 else EnabledCount(statuses, n - 1) + (if StatusAt(statuses, n - 1) == ENABLED then 1 else 0)
  }

  lemma {:induction false} EnabledCountIs(keys: seq<string>, statuses: Statuses, times: Times, reasons: Reasons)
    ensures EnabledCount(statuses, |keys|) == |Filter(RecordsOf(keys, statuses, times, reasons), IsEnabled)|
    decreases |keys|
  {
    if keys == [] {
    } else {
      var init := keys[..|keys| - 1];
      EnabledCountIs(init, statuses, times, reasons);
      var records := RecordsOf(keys, statuses, times, reasons);
      assert records[..|records| - 1] == RecordsOf(init, statuses, times, reasons);
    }
  }

  /** The loop of disable_all_keys. */
  method WithEnabledDisabled(statuses: Statuses, n: nat) returns (after: Statuses, disabledCount: nat)
    ensures DisabledBelow(statuses, n, after)
    ensures disabledCount == EnabledCount(statuses, n)
  {
    after, disabledCount := statuses, 0;
    for i := 0 to n
      invariant DisabledBelow(statuses, i, after)
      invariant disabledCount == EnabledCount(statuses, i)
    {
      if StatusAt(after, i) == ENABLED {
        after := after[i := MANUALLY_DISABLED];
        disabledCount := disabledCount + 1;
      }
    }
  }

  /** The records with every enabled one disabled by hand. */
  function AllDisabled(records: seq<Record>): (r: seq<Record>) {
    seq(|records|, i requires 0 <= i < |records| => if IsEnabled(records[i]) then records[i].(status := MANUALLY_DISABLED) else records[i])
  }

  ghost predicate DisabledBelow(statuses: Statuses, n: nat, after: Statuses) {
    && (forall i :: i in after <==> i in statuses || 0 <= i < n)
    && (forall i :: i in after ==> after[i] == if 0 <= i < n && StatusAt(statuses, i) == ENABLED then MANUALLY_DISABLED else statuses[i])
  }

  lemma DisabledRecords(keys: seq<string>, statuses: Statuses, times: Times, reasons: Reasons, after: Statuses, n: nat)
    requires DisabledBelow(statuses, n, after) && |keys| <= n
    ensures RecordsOf(keys, after, times, reasons) == AllDisabled(RecordsOf(keys, statuses, times, reasons))
    ensures Sparse(n, statuses, times, reasons) ==> Sparse(n, after, times, reasons)
  {
  }

  lemma {:induction false} NoneEnabled(records: seq<Record>)
    requires Filter(records, IsEnabled) == []
    ensures AllDisabled(records) == records
  {
    if records == [] {
    } else {
      NoneEnabled(records[..|records| - 1]);
      assert AllDisabled(records)[..|records| - 1] == AllDisabled(records[..|records| - 1]);
    }
  }

  function AllEnabled(keys: seq<string>): (r: seq<Record>) {
    seq(|keys|, i requires 0 <= i < |keys| => Record(keys[i], ENABLED, None, None))
  }

  function Count(records: seq<Record>, status: int): (n: nat) {
    if records == [] then 0
    else Count(records[..|records| - 1], status) + (if records[|records| - 1].status == status then 1 else 0)
  }

  /** Exactly the records of another status than 3 are left, each where the order
      of the old list puts it; the enabled ones lose a time and a reason. `at` are
      their old positions. */
  ghost predicate LeftAt(before: seq<Record>, after: seq<Record>, at: seq<nat>) {
    && |at| == |after| && (forall i, j :: 0 <= i < j < |at| ==> at[i] < at[j])
    && (forall k :: 0 <= k < |at| ==>
          && at[k] < |before| && before[at[k]].status != 3
          && after[k] == if before[at[k]].status == 1 then Record(before[at[k]].key, 1, None, None) else before[at[k]])
    && (forall i :: 0 <= i < |before| && before[i].status != 3 ==> i in at)
  }

  ghost predicate Survivors(before: seq<Record>, after: seq<Record>) {
    exists at :: LeftAt(before, after, at)
  }

  lemma {:induction false} KeptSurvive(records: seq<Record>) returns (at: seq<nat>)
    ensures LeftAt(records, AllSettled(Filter(records, Kept)), at)
    ensures Count(records, 3) == |records| - |Filter(records, Kept)|
  {
    if records == [] {
      at := [];
    } else {
      var init, last := records[..|records| - 1], records[|records| - 1];
      at := KeptSurvive(init);
      var kept := Filter(init, Kept);
      if last.status != 3 {
        LeftSnoc(init, last, AllSettled(kept), at);
        AllSettledSnoc(kept, last);
        at := at + [|init|];
      }
      assert records == init + [last];
    }
  }

  /** What deletion leaves, and how many records it takes. */
  lemma DeletionLeaves(records: seq<Record>)
    ensures Survivors(records, AllSettled(Filter(records, Kept)))
    ensures Count(records, 3) == |records| - |AllSettled(Filter(records, Kept))|
  {
    var at := KeptSurvive(records);
  }

  lemma LeftSnoc(before: seq<Record>, last: Record, after: seq<Record>, at: seq<nat>)
    requires LeftAt(before, after, at) && last.status != 3
    ensures LeftAt(before + [last], after + [Settled(last)], at + [|before|])
  {
  }

  /** Statuses of keys past the count are dropped on saving. */
  function Pruned(statuses: Statuses, n: int): (r: Statuses) {
    map i | i in statuses && i < n :: statuses[i]
  }

  lemma InRangeIsPruned(n: nat, statuses: Statuses, times: Times, reasons: Reasons)
    requires InRange(n, statuses, times, reasons)
    ensures Pruned(statuses, n) == statuses
  {
  }

  lemma PrunedKeepsRecords(keys: seq<string>, statuses: Statuses, times: Times, reasons: Reasons, n: nat)
    requires |keys| <= n
    ensures RecordsOf(keys, Pruned(statuses, n), times, reasons) == RecordsOf(keys, statuses, times, reasons)
    ensures Sparse(n, statuses, times, reasons) ==> Sparse(n, Pruned(statuses, n), times, reasons)
  {
  }

  /** How many keys Update counts in a text: an empty JSON array counts as one line. */
  function StoredSize(parse: JsonArray, text: string): (n: nat) {
    var trimmed := TrimSpace(text);
    if text == "" then 0
    else if HasPrefix(trimmed, "[") && parse(trimmed).Some? && parse(trimmed).value != [] then |parse(trimmed).value|
    else |Lines(text)|
  }

  method CountKeys(parse: JsonArray, text: string) returns (n: nat)
    ensures n == StoredSize(parse, text)
  {
    var keys: seq<string> := [];
    if text != "" {
      var trimmed := TrimSpace(text);
      if HasPrefix(trimmed, "[") && parse(trimmed).Some? {
        keys := parse(trimmed).value;
      }
      if |keys| == 0 {
        keys := Lines(text);
      }
    }
    n := |keys|;
  }

  /** The size is the number of keys, except for an empty array, which counts as
      its lines but has no key. */
  lemma StoredSizeCoversKeys(parse: JsonArray, text: string)
    requires text != ""
    ensures StoredSize(parse, text) >= 1 && StoredSize(parse, text) >= |GetKeys(parse, text)|
    ensures GetKeys(parse, text) != [] ==> StoredSize(parse, text) == |GetKeys(parse, text)|
  {
  }

  lemma StoredSizeIsKeyCount(parse: JsonArray, text: string)
    requires GetKeys(parse, text) != []
    ensures StoredSize(parse, text) == |GetKeys(parse, text)|
  {
  }

  /** The text in force after a list of keys is written: a blank one is skipped. */
  function InForce(before: string, keys: seq<string>): (text: string) {
    if Join(keys, '\n') == "" then before else Join(keys, '\n')
  }

  /** Text, size and records after a deletion that should leave the rest: it is
      the rest that is left if and only if its keys survive storage. (The text in
      force before can only match it by being that short already.) */
  ghost predicate Rewritten(parse: JsonArray, before: string, rest: seq<Record>, text: string, size: int, records: seq<Record>) {
    && text == InForce(before, KeysOf(rest)) && size == StoredSize(parse, text)
    && (Storable(parse, KeysOf(rest)) ==> records == rest)
    && (|rest| < |GetKeys(parse, before)| && KeysOf(records) == KeysOf(rest) ==> Storable(parse, KeysOf(rest)))
  }

  lemma Rebuilt(parse: JsonArray, before: string, keys: seq<string>, statuses: Statuses, times: Times, reasons: Reasons)
    requires InRange(|keys|, statuses, times, reasons)
    ensures var rest, text := RecordsOf(keys, statuses, times, reasons), InForce(before, keys);
            var n, read := StoredSize(parse, text), GetKeys(parse, text);
            && Rewritten(parse, before, rest, text, n, RecordsOf(read, Pruned(statuses, n), times, reasons))
            && (Storable(parse, keys) ==> read == keys && n == |keys| && Pruned(statuses, n) == statuses)
  {
    var text := InForce(before, keys);
    var n, read := StoredSize(parse, text), GetKeys(parse, text);
    KeysOfRecords(keys, statuses, times, reasons);
    KeysOfRecords(read, Pruned(statuses, n), times, reasons);
    StoredKeysReadBackIff(parse, keys);
    if Storable(parse, keys) {
      StoredSizeIsKeyCount(parse, text);
      InRangeIsPruned(|keys|, statuses, times, reasons);
    }
  }

  /** With no key left the old text stays in force and all its keys are enabled. */
  lemma NothingLeft(parse: JsonArray, before: string, none: Statuses, noTimes: Times, noReasons: Reasons)
    requires InRange(0, none, noTimes, noReasons)
    ensures var keys := GetKeys(parse, before);
            InForce(before, []) == before && RecordsOf(keys, Pruned(none, StoredSize(parse, before)), noTimes, noReasons) == AllEnabled(keys)
  {
  }

  lemma EnableRecord(keys: seq<string>, statuses: Statuses, times: Times, reasons: Reasons, i: nat, n: nat)
    requires i < n
    ensures Sparse(n, statuses, times, reasons) ==> Sparse(n, statuses - {i}, times - {i}, reasons - {i})
    ensures var before := RecordsOf(keys, statuses, times, reasons);
      RecordsOf(keys, statuses - {i}, times - {i}, reasons - {i})
      == if i < |keys| then before[i := Record(keys[i], ENABLED, None, None)] else before
  {
  }

  lemma DisableRecord(keys: seq<string>, statuses: Statuses, times: Times, reasons: Reasons, i: nat, n: nat)
    requires i < n
    ensures Sparse(n, statuses, times, reasons) ==> Sparse(n, statuses[i := MANUALLY_DISABLED], times, reasons)
    ensures var before := RecordsOf(keys, statuses, times, reasons);
      RecordsOf(keys, statuses[i := MANUALLY_DISABLED], times, reasons)
      == if i < |keys| then before[i := before[i].(status := MANUALLY_DISABLED)] else before
  {
  }

  // ---- The status flow outside these actions --------------------------------------

  datatype Maps = Maps(statuses: Statuses, times: Times, reasons: Reasons)

  /** The first position of a key. */
  function FirstAt(keys: seq<string>, key: string): (at: Option<nat>)
    ensures at.Some? ==> at.value < |keys| && keys[at.value] == key && forall j :: 0 <= j < at.value ==> keys[j] != key
    ensures at.None? ==> key !in keys
  {
    if keys == [] then None
    else
      var init, last := keys[..|keys| - 1], |keys| - 1;
      if FirstAt(init, key).Some? then FirstAt(init, key) else if keys[last] == key then Some(last) else None
  }

  /** handlerMultiKeyUpdate: disabling a key stores time and reason, re-enabling it
      drops the status alone; an unknown key changes nothing. */
  function AutomaticallyUpdated(keys: seq<string>, m: Maps, usingKey: string, status: int, now: int, reason: string): (r: Maps) {
    var at := FirstAt(keys, usingKey);
    if at.None? then m
    else if status == ENABLED then m.(statuses := m.statuses - {at.value})
    else Maps(m.statuses[at.value := status], m.times[at.value := now], m.reasons[at.value := reason])
  }

  /** Seen as records: the first record with that key gets the status, and with a
      disabling status the time and the reason; every other record stays. */
  lemma AutomaticUpdateRecords(keys: seq<string>, m: Maps, usingKey: string, status: int, now: int, reason: string)
    ensures var r := AutomaticallyUpdated(keys, m, usingKey, status, now, reason);
      var before, after := RecordsOf(keys, m.statuses, m.times, m.reasons), RecordsOf(keys, r.statuses, r.times, r.reasons);
      forall i :: 0 <= i < |keys| ==>
        after[i] == if keys[i] != usingKey || usingKey in keys[..i] then before[i]
                    else if status == 1 then before[i].(status := 1)
                    else Record(usingKey, status, Some(now), Some(reason))
  {
    var at := FirstAt(keys, usingKey);
    forall i | 0 <= i < |keys| ensures at == Some(i) <==> keys[i] == usingKey && usingKey !in keys[..i] {
      if at.Some? && at.value < i {
        assert keys[..i][at.value] == usingKey;
      }
    }
  }

  /** The update keeps the maps sparse if and only if it does not re-enable a key
      whose time or reason is stored; then they stay behind as strays. */
  lemma AutomaticUpdateKeepsSparseIff(keys: seq<string>, m: Maps, usingKey: string, status: int, now: int, reason: string)
    requires Sparse(|keys|, m.statuses, m.times, m.reasons)
    ensures var r := AutomaticallyUpdated(keys, m, usingKey, status, now, reason); var at := FirstAt(keys, usingKey);
      Sparse(|keys|, r.statuses, r.times, r.reasons) <==> status != ENABLED || at.None? || (at.value !in m.times && at.value !in m.reasons)
  {
  }

  /** A blank line between two keys is a key of its own until the first one is
      deleted; then it is gone, and the second key answers to its index. */
  lemma BlankKeyVanishes(parse: JsonArray, a: string, b: string)
    requires Storable(parse, [a, "", b]) && !ParsesAsArray(parse, "\n" + b)
    ensures GetKeys(parse, Join([a, "", b], '\n')) == [a, "", b]
    ensures Without([a, "", b], 0) == ["", b] && GetKeys(parse, Join(["", b], '\n')) == [b]
  {
    StoredKeysReadBackIff(parse, [a, "", b]);
    assert ["", b][1..] == [b] && Join(["", b], '\n') == "\n" + b;
    assert b in [a, "", b];
    LeadingBreak(b);
  }

  lemma LeadingBreak(b: string)
    requires b != "" && '\n' !in b
    ensures Lines("\n" + b) == [b]
  {
    assert ("\n" + b)[1..] == b && Clean(b, c => c == '\n');
    SplitWhole(b, '\n');
  }

  // ---- The channel ---------------------------------------------------------------

  datatype Reply = Done(count: nat) | MissingIndex | IndexOutOfRange | NothingToDisable | LastKey | NothingToDelete

  class Channel {
    const parse: JsonArray
    /** The key column as the database holds it. */
    var stored: string
    var key: string
    var size: int
    var statuses: Statuses
    var times: Times
    var reasons: Reasons

    function Keys(): seq<string>
      reads this
    {
      GetKeys(parse, key)
    }

    function Records(): (r: seq<Record>)
      reads this
    {
      RecordsOf(Keys(), statuses, times, reasons)
    }

    /** The object as it was loaded, with the size that the last save computed. The
        row may have changed since then: nothing is said of `stored`. */
    predicate Valid()
      reads this
    {
      key != "" && size == StoredSize(parse, key)
    }

    predicate Tidy()
      reads this
    {
      size >= 0 && Sparse(size, statuses, times, reasons)
    }

    /** A copy of the row. */
    constructor (parse: JsonArray, stored: string, size: int, statuses: Statuses, times: Times, reasons: Reasons)
      ensures this.parse == parse && this.stored == stored == key && this.size == size
      ensures this.statuses == statuses && this.times == times && this.reasons == reasons
    {
      this.parse, this.stored, this.key, this.size := parse, stored, stored, size;
      this.statuses, this.times, this.reasons := statuses, times, reasons;
    }

    /** Channel.Update: a blank key is a zero field and is not written, the size
        is recomputed from the text in force, entries past it are dropped, and
        the object becomes the stored row. */
    method Save()
      modifies this
      ensures stored == (if old(key) == "" then old(stored) else old(key)) && key == stored
      ensures size == StoredSize(parse, stored)
      ensures statuses == Pruned(old(statuses), size) && forall i :: i in statuses <==> i in old(statuses) && i < size
      ensures times == old(times) && reasons == old(reasons)
    {
      var keyStr := if key == "" then stored else key;
      size := CountKeys(parse, keyStr);
      statuses := Pruned(statuses, size);
      stored := keyStr;
      key := stored;
    }

    /** Saving the loaded key column with new maps overwrites the row with both. */
    method SaveMaps()
      requires Valid()
      modifies this
      ensures Valid() && stored == key == old(key) && size == old(size)
      ensures Records() == old(Records()) && (old(Tidy()) ==> Tidy())
    {
      StoredSizeCoversKeys(parse, key);
      PrunedKeepsRecords(Keys(), statuses, times, reasons, size);
      Save();
    }

    method DisableKey(index: Option<int>) returns (reply: Reply)
      requires Valid()
      modifies this
      ensures Valid() && key == old(key) && (old(Tidy()) ==> Tidy())
      ensures reply == (if index.None? then MissingIndex else if 0 <= index.value < old(size) then Done(1) else IndexOutOfRange)
      ensures Records() == if reply.Done? && index.value < |old(Records())|
                           then old(Records())[index.value := old(Records())[index.value].(status := 2)]
                           else old(Records())
    {
      if index.None? { return MissingIndex; }
      if index.value < 0 || index.value >= size { return IndexOutOfRange; }
      DisableRecord(Keys(), statuses, times, reasons, index.value, size);
      statuses := statuses[index.value := MANUALLY_DISABLED];
      SaveMaps();
      return Done(1);
    }

    method EnableKey(index: Option<int>) returns (reply: Reply)
      requires Valid()
      modifies this
      ensures Valid() && key == old(key) && (old(Tidy()) ==> Tidy())
      ensures reply == (if index.None? then MissingIndex else if 0 <= index.value < old(size) then Done(1) else IndexOutOfRange)
      ensures Records() == if reply.Done? && index.value < |old(Records())|
                           then old(Records())[index.value := Record(old(Records())[index.value].key, 1, None, None)]
                           else old(Records())
    {
      if index.None? { return MissingIndex; }
      if index.value < 0 || index.value >= size { return IndexOutOfRange; }
      EnableRecord(Keys(), statuses, times, reasons, index.value, size);
      statuses := statuses - {index.value};
      times := times - {index.value};
      reasons := reasons - {index.value};
      SaveMaps();
      return Done(1);
    }

    method EnableAllKeys() returns (reply: Reply)
      requires Valid()
      modifies this
      ensures Valid() && Tidy() && key == old(key)
      ensures reply == Done(|old(statuses)|)
      ensures Records() == AllEnabled(old(Keys()))
      ensures |Records()| == |old(Keys())| && forall i :: 0 <= i < |Records()| ==> Records()[i] == Record(old(Keys())[i], 1, None, None)
    {
      reply := Done(|statuses|);
      statuses, times, reasons := map[], map[], map[];
      assert Records() == AllEnabled(Keys());
      SaveMaps();
    }

    method DisableAllKeys() returns (reply: Reply)
      requires Valid()
      modifies this
      ensures Valid() && key == old(key) && (old(Tidy()) ==> Tidy())
      ensures Records() == AllDisabled(old(Records()))
      ensures forall i :: 0 <= i < |Records()| ==> Records()[i] == old(Records())[i].(status := if old(Records())[i].status == 1 then 2 else old(Records())[i].status)
      ensures reply == var n := EnabledCount(old(statuses), old(size)); if n == 0 then NothingToDisable else Done(n)
      ensures old(Keys()) != [] ==> EnabledCount(old(statuses), old(size)) == |Filter(old(Records()), IsEnabled)|
    {
      StoredSizeCoversKeys(parse, key);
      var disabled, disabledCount := WithEnabledDisabled(statuses, size);
      EnabledCountIs(Keys(), statuses, times, reasons);
      if disabledCount == 0 {
        NoneEnabled(Records());
        return NothingToDisable;
      }
      DisabledRecords(Keys(), statuses, times, reasons, disabled, size);
      statuses := disabled;
      SaveMaps();
      return Done(disabledCount);
    }

    /** The state after a deletion that should leave the given records. */
    ghost predicate Deleted(before: string, rest: seq<Record>)
      reads this
    {
      && stored == key && Rewritten(parse, before, rest, key, size, Records())
      && (key != "" ==> Valid())
    }

    /** Stores a rebuilt key list with its maps. */
    method Replace(keys: seq<string>, newStatuses: Statuses, newTimes: Times, newReasons: Reasons)
      modifies this
      ensures stored == key == InForce(old(stored), keys) && size == StoredSize(parse, key)
      ensures statuses == Pruned(newStatuses, size) && times == newTimes && reasons == newReasons
    {
      key := Join(keys, '\n');
      size := |keys|;
      statuses, times, reasons := newStatuses, newTimes, newReasons;
      Save();
    }

    /** Stores a rebuilt list that stands for the given rest. */
    method StoreRest(keys: seq<string>, newStatuses: Statuses, newTimes: Times, newReasons: Reasons)
      requires InRange(|keys|, newStatuses, newTimes, newReasons)
      modifies this
      ensures Deleted(old(stored), RecordsOf(keys, newStatuses, newTimes, newReasons))
      ensures KeysOf(RecordsOf(keys, newStatuses, newTimes, newReasons)) == keys
      ensures Storable(parse, keys) ==> Records() == RecordsOf(keys, newStatuses, newTimes, newReasons)
      ensures Storable(parse, keys) && Sparse(|keys|, newStatuses, newTimes, newReasons) ==> Tidy()
      ensures keys == [] ==> key == old(stored) && Records() == AllEnabled(Keys())
    {
      KeysOfRecords(keys, newStatuses, newTimes, newReasons);
      Rebuilt(parse, stored, keys, newStatuses, newTimes, newReasons);
      if keys == [] {
        NothingLeft(parse, stored, newStatuses, newTimes, newReasons);
      }
      Replace(keys, newStatuses, newTimes, newReasons);
    }

    /** Removes one record of the loaded list. The keys that remain are stored as
        lines, over whatever the row holds by now: the channel is the shorter list
        afterwards if and only if they survive that. */
    method DeleteKey(index: Option<int>) returns (reply: Reply)
      requires Valid()
      modifies this
      ensures reply == (if index.None? then MissingIndex else if !(0 <= index.value < old(size)) then IndexOutOfRange
                        else if |old(Records())| <= 1 then LastKey else Done(1))
      ensures !reply.Done? ==> Valid() && Records() == old(Records())
      ensures reply.Done? ==> Deleted(old(stored), Without(old(Records()), index.value))
      ensures reply.Done? && Storable(parse, KeysOf(Without(old(Records()), index.value))) && old(Tidy()) ==> Tidy()
    {
      if index.None? { return MissingIndex; }
      if index.value < 0 || index.value >= size { return IndexOutOfRange; }
      StoredSizeCoversKeys(parse, key);
      var remaining, newStatuses, newTimes, newReasons := WithoutIndex(Keys(), statuses, times, reasons, index.value);
      if |remaining| == 0 { return LastKey; }
      if Tidy() {
        WithoutKeepsSparse(Keys(), statuses, times, reasons, index.value, remaining, newStatuses, newTimes, newReasons);
      }
      StoreRest(remaining, newStatuses, newTimes, newReasons);
      return Done(1);
    }

    /** Removes the automatically disabled keys. With none the call is refused;
        with nothing else left the blank key is not written, so the row keeps its
        keys and comes back with all of them enabled. */
    method DeleteDisabledKeys() returns (reply: Reply)
      requires Valid()
      modifies this
      ensures reply == var n := Count(old(Records()), 3); if n == 0 then NothingToDelete else Done(n)
      ensures reply.Done? && Storable(parse, KeysOf(AllSettled(Filter(old(Records()), Kept)))) ==> Survivors(old(Records()), Records())
      ensures !reply.Done? ==> Valid() && Records() == old(Records())
      ensures reply.Done? ==> Deleted(old(stored), AllSettled(Filter(old(Records()), Kept)))
      ensures reply.Done? && Storable(parse, KeysOf(AllSettled(Filter(old(Records()), Kept)))) ==> Tidy()
      ensures reply.Done? && Filter(old(Records()), Kept) == [] ==> key == old(stored) && Records() == AllEnabled(Keys())
    {
      ghost var before := Records();
      DeletionLeaves(before);
      var remaining, newStatuses, newTimes, newReasons, deletedCount := WithoutAutoDisabled(Keys(), statuses, times, reasons);
      ghost var kept := RecordsOf(remaining, newStatuses, newTimes, newReasons);
      assert kept == AllSettled(Filter(before, Kept)) && |kept| == |remaining| && |before| == |Keys()|;
      if deletedCount == 0 {
        return NothingToDelete;
      }
      reply := Done(deletedCount);
      SettledIsSparse(remaining, newStatuses, newTimes, newReasons, Filter(before, Kept));
      StoreRest(remaining, newStatuses, newTimes, newReasons);
    }
  }

  // ---- Two copies of one row -------------------------------------------------------

  /** A deletion whose remaining keys survive storage, on any copy of any row. */
  method DeleteFromCopy(copy: Channel, maps: Maps, at: nat)
    requires copy.Valid() && at < |copy.Keys()| && Storable(copy.parse, Without(copy.Keys(), at))
    requires maps == Maps(copy.statuses, copy.times, copy.reasons)
    modifies copy
    ensures copy.Records() == Without(old(copy.Records()), at)
  {
    StoredSizeCoversKeys(copy.parse, copy.key);
    WithoutKeys(copy.Keys(), maps, at);
    var _ := copy.DeleteKey(Some(at));
  }

  /** Two requests load the row before either takes the lock. The first deletes
      key i and saves; the second deletes key j from its own copy and saves over
      that. The row ends as the loaded list without j alone: key i is back. */
  method OverlappingDeletions(parse: JsonArray, row: string, maps: Maps, i: nat, j: nat) returns (final: seq<Record>)
    requires i < |GetKeys(parse, row)| && j < |GetKeys(parse, row)|
    requires Storable(parse, Without(GetKeys(parse, row), i)) && Storable(parse, Without(GetKeys(parse, row), j))
    ensures var loaded := RecordsOf(GetKeys(parse, row), maps.statuses, maps.times, maps.reasons);
      final == Without(loaded, j) && (i != j ==> loaded[i] in final)
  {
    var a := new Channel(parse, row, StoredSize(parse, row), maps.statuses, maps.times, maps.reasons);
    var b := new Channel(parse, row, StoredSize(parse, row), maps.statuses, maps.times, maps.reasons);
    ghost var loaded := b.Records();
    if i != j {
      StillThere(loaded, i, j);
    }
    DeleteFromCopy(a, maps, i);
    b.stored := a.stored;
    assert b.Valid() && b.Records() == loaded;
    DeleteFromCopy(b, maps, j);
    final := b.Records();
  }

  lemma WithoutKeys(keys: seq<string>, maps: Maps, at: nat)
    requires at < |keys|
    ensures KeysOf(Without(RecordsOf(keys, maps.statuses, maps.times, maps.reasons), at)) == Without(keys, at)
  {
  }

  lemma StillThere<T>(xs: seq<T>, i: nat, j: nat)
    requires i < |xs| && j < |xs| && i != j
    ensures xs[i] in Without(xs, j)
  {
    assert xs[i] == Without(xs, j)[if i < j then i else i - 1];
  }

  /** Deleting from a loaded copy gives what deleting from the row itself would
      give if and only if the row is unchanged since, but for the deleted record. */
  lemma StaleDeletionIff(loaded: seq<Record>, current: seq<Record>, at: nat)
    requires at < |loaded| && at < |current|
    ensures Without(loaded, at) == Without(current, at)
       <==> |loaded| == |current| && forall k :: 0 <= k < |loaded| && k != at ==> loaded[k] == current[k]
  {
    if Without(loaded, at) == Without(current, at) {
      forall k | 0 <= k < |loaded| && k != at ensures loaded[k] == current[k] {
        var shifted := if k < at then k else k - 1;
        assert loaded[k] == Without(loaded, at)[shifted] && current[k] == Without(current, at)[shifted];
      }
    }
  }
}
