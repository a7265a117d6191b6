/** Merging the nodes' replay logs into one timeline. */
module ReplayMerge {
  import opened Bytes
  import opened ExactIo
  import opened Framing
  import opened Replay
  import opened Wrappers

  /** The comparator handed to the sort: timestamp, then sequence, then node role. */
  predicate Less(a: Event, b: Event) {
    if a.timestamp != b.timestamp then a.timestamp < b.timestamp
    else if a.sequence != b.sequence then a.sequence < b.sequence
    else a.nodeRole < b.nodeRole
  }

  /** No later event precedes an earlier one. */
  predicate Sorted(es: seq<Event>) {
    forall i, j :: 0 <= i < j < |es| ==> !Less(es[j], es[i])
  }

  /** By time, at equal times by sequence, and at equal sequences by node role. */
  predicate InOrder(a: Event, b: Event) {
    && a.timestamp <= b.timestamp
    && (a.timestamp == b.timestamp ==> a.sequence <= b.sequence)
    && (a.timestamp == b.timestamp && a.sequence == b.sequence ==> a.nodeRole <= b.nodeRole)
  }

  /** What the comparator sorts by, and so what Sorted means, in the events' own fields. */
  lemma SortedInFields(es: seq<Event>)
    ensures Sorted(es) <==> forall i, j :: 0 <= i < j < |es| ==> InOrder(es[i], es[j])
  {
    forall a: Event, b: Event ensures Less(b, a) <==> !InOrder(a, b) {}
  }

  /** Only equal events tie under the comparator. */
  ghost predicate TiesAreEqual(es: seq<Event>) {
    forall x, y :: x in es && y in es && x != y ==> Less(x, y) || Less(y, x)
  }

  function Flatten(logs: seq<seq<Event>>): seq<Event> {
    if logs == [] then [] else Flatten(logs[..|logs| - 1]) + logs[|logs| - 1]
  }

  /** A log as one node writes it: its own role, time not running back, sequence counting up. */
  predicate NodeLog(log: seq<Event>, role: byte) {
    && (forall i :: 0 <= i < |log| ==> log[i].nodeRole == role)
    && (forall i, j :: 0 <= i < j < |log| ==>
          log[i].timestamp <= log[j].timestamp && log[i].sequence < log[j].sequence)
  }

  predicate NodeLogs(logs: seq<seq<Event>>, roles: seq<byte>) {
    && |logs| == |roles|
    && (forall i :: 0 <= i < |logs| ==> NodeLog(logs[i], roles[i]))
    && (forall i, j :: 0 <= i < j < |roles| ==> roles[i] != roles[j])
  }

  function OfRole(es: seq<Event>, role: byte): seq<Event> {
    if es == [] then []
    else
      var n := |es| - 1;
      OfRole(es[..n], role) + if es[n].nodeRole == role then [es[n]] else []
  }

  lemma InsertKeepsSorted(front: seq<Event>, e: Event, back: seq<Event>)
    requires Sorted(front + back)
    requires front != [] ==> !Less(e, front[|front| - 1])
    requires forall k :: 0 <= k < |back| ==> Less(e, back[k])
    ensures Sorted(front + [e] + back)
    ensures multiset(front + [e] + back) == multiset(front + back) + multiset{e}
  {
    var s, t := front + back, front + [e] + back;
    forall i, j | 0 <= i < j < |t| ensures !Less(t[j], t[i]) {
      var n := |front|;
      if j == n {
        assert t[i] == s[i];
        assert i < n - 1 ==> !Less(s[n - 1], s[i]);
      } else if i != n {
        var p, q := if i < n then i else i - 1, if j < n then j else j - 1;
        assert t[i] == s[p] && t[j] == s[q];
      } else {
        assert t[j] == back[j - n - 1];
      }
    }
  }

  method InsertSorted(sorted: seq<Event>, e: Event) returns (out: seq<Event>)
    requires Sorted(sorted)
    ensures Sorted(out) && multiset(out) == multiset(sorted) + multiset{e}
  {
    hide Less, Sorted;
    var i := |sorted|;
    while i > 0 && Less(e, sorted[i - 1])
      invariant 0 <= i <= |sorted|
      invariant forall k :: i <= k < |sorted| ==> Less(e, sorted[k])
    {
      i := i - 1;
    }
    assert sorted == sorted[..i] + sorted[i..];
    InsertKeepsSorted(sorted[..i], e, sorted[i..]);
    out := sorted[..i] + [e] + sorted[i..];
  }

  /** Stands for std::sort, of which only this contract is used. */
  method Sort(es: seq<Event>) returns (out: seq<Event>)
    ensures Sorted(out) && multiset(out) == multiset(es)
  {
    out := [];
    for i := 0 to |es|
      invariant Sorted(out) && multiset(out) == multiset(es[..i])
    {
      assert es[..i + 1] == es[..i] + [es[i]];
      out := InsertSorted(out, es[i]);
    }
    assert es[..|es|] == es;
  }

  /** The devices behind the files that could be opened. */
  function Devices(files: seq<Option<Descriptor>>): set<Descriptor> {
    set i | 0 <= i < |files| && files[i].Some? :: files[i].value
  }

  predicate Distinct(files: seq<Option<Descriptor>>) {
    forall i, j :: 0 <= i < j < |files| && files[i].Some? && files[j].Some? ==> files[i].value != files[j].value
  }

  /** What is in the files. */
  function Contents(files: seq<Option<Descriptor>>): (contents: seq<Option<seq<byte>>>)
    reads Devices(files)
    ensures |contents| == |files|
    ensures forall i :: 0 <= i < |files| ==>
      contents[i] == if files[i] == None then None else Some(files[i].value.incoming)
  {
    if files == [] then []
    else
      var n := |files| - 1;
      assert Devices(files[..n]) <= Devices(files);
      assert files[n].Some? ==> files[n].value in Devices(files);
      Contents(files[..n]) + [if files[n] == None then None else Some(files[n].value.incoming)]
  }

  lemma EventsUnfold(s: seq<byte>)
    ensures ParseEvent(s) == None ==> Events(s) == []
    ensures ParseEvent(s).Some? ==>
      var (e, n) := ParseEvent(s).value;
      0 < n <= |s| && Events(s) == [e] + Events(s[n..])
  {
    ParsedIsEncoding(s);
    hide ParseEvent;
  }

  lemma PrefixIsValid(es: seq<Event>, more: seq<Event>)
    requires AllValid(ValidEvent, es + more)
    ensures AllValid(ValidEvent, es)
  {
    assert forall i :: 0 <= i < |es| ==> (es + more)[i] == es[i];
  }

  /** The first events of a file, and all of them unless a call that was made errs. */
  method ReadLog(fd: Descriptor) returns (log: seq<Event>)
    modifies fd`incoming, fd`calls
    ensures log <= Events(old(fd.incoming)) && AllValid(ValidEvent, log)
    ensures old(fd.calls) <= fd.calls <= old(fd.calls) + |old(fd.incoming)|
    ensures Smooth(fd.plan, old(fd.calls), fd.calls) ==> log == Events(old(fd.incoming))
  {
    hide ParseEvent, Events, AllValid;
    var reader := new ReplayReader(fd);
    log := [];
    EventsAreValid(fd.incoming);
    assert log + Events(fd.incoming) == Events(fd.incoming);
    while true
      invariant reader.fd == fd
      invariant Events(old(fd.incoming)) == log + Events(fd.incoming)
      invariant |fd.incoming| <= |old(fd.incoming)|
      invariant old(fd.calls) <= fd.calls <= old(fd.calls) + |old(fd.incoming)| - |fd.incoming|
      decreases |fd.incoming|
    {
      ghost var before, from := fd.incoming, fd.calls;
      EventsUnfold(before);
      var next := reader.Next();
      if next == None {
        assert Smooth(fd.plan, old(fd.calls), fd.calls) ==> Smooth(fd.plan, from, fd.calls);
        assert Smooth(fd.plan, from, fd.calls) ==> Events(before) == [] && log + [] == log;
        PrefixIsValid(log, Events(before));
        return;
      }
      assert log + ([next.value] + Events(fd.incoming)) == log + [next.value] + Events(fd.incoming);
      log := log + [next.value];
    }
  }

  /** The logs in the files that could be opened. */
  function Readable(contents: seq<Option<seq<byte>>>): seq<seq<Event>> {
    if contents == [] then []
    else
      var n := |contents| - 1;
      Readable(contents[..n]) + if contents[n] == None then [] else [Events(contents[n].value)]
  }

  lemma FlattenOneMore(logs: seq<seq<Event>>, log: seq<Event>)
    ensures Flatten(logs + [log]) == Flatten(logs) + log
  {
    assert (logs + [log])[..|logs|] == logs;
  }

  lemma PermutationIsValid(a: seq<Event>, b: seq<Event>)
    requires multiset(a) == multiset(b) && AllValid(ValidEvent, a)
    ensures AllValid(ValidEvent, b)
  {
    forall i | 0 <= i < |b| ensures ValidEvent(b[i]) {
      assert b[i] in multiset(b);
      assert b[i] in a;
    }
  }

  lemma AppendKeepsMembers(a: seq<Event>, b: seq<Event>, moreA: seq<Event>, moreB: seq<Event>)
    requires multiset(a) <= multiset(moreA) && b <= moreB
    ensures multiset(a + b) <= multiset(moreA + moreB)
  {
    assert moreB == b + moreB[|b|..];
  }

  /** No call made on any of the files since they stood at `from` erred. */
  twostate predicate AllSmooth(files: seq<Option<Descriptor>>)
    reads Devices(files)
  {
    forall fd :: fd in Devices(files) ==> Smooth(fd.plan, old(fd.calls), fd.calls)
  }

  lemma AppendKeepsValid(a: seq<Event>, b: seq<Event>)
    requires AllValid(ValidEvent, a) && AllValid(ValidEvent, b)
    ensures AllValid(ValidEvent, a + b)
  {
  }

  lemma NothingRead(contents: seq<Option<seq<byte>>>)
    ensures Flatten(Readable(contents[..0])) == [] && AllValid(ValidEvent, [])
  {
  }

  lemma ReadableOneMore(contents: seq<Option<seq<byte>>>, i: nat)
    requires i < |contents|
    ensures var before := Flatten(Readable(contents[..i]));
      Flatten(Readable(contents[..i + 1])) == if contents[i] == None then before else before + Events(contents[i].value)
  {
    assert contents[..i + 1][..i] == contents[..i];
    var before := Readable(contents[..i]);
    if contents[i] == None {
      assert before + [] == before;
    } else {
      FlattenOneMore(before, Events(contents[i].value));
    }
  }

  method ReadLogs(files: seq<Option<Descriptor>>) returns (events: seq<Event>)
    requires Distinct(files)
    modifies Devices(files)
    ensures AllValid(ValidEvent, events)
    ensures multiset(events) <= multiset(Flatten(Readable(old(Contents(files)))))
    ensures AllSmooth(files) ==> events == Flatten(Readable(old(Contents(files))))
  {
    hide Events, Flatten, Readable, AllValid;
    events := [];
    NothingRead(Contents(files));
    ghost var contents := Contents(files);
    for i := 0 to |files|
      invariant AllValid(ValidEvent, events) && multiset(events) <= multiset(Flatten(Readable(contents[..i])))
      invariant AllSmooth(files) ==> events == Flatten(Readable(contents[..i]))
      invariant forall j :: i <= j < |files| && files[j].Some? ==>
        files[j].value.incoming == old(files[j].value.incoming) && files[j].value.calls == old(files[j].value.calls)
    {
      ReadableOneMore(contents, i);
      if files[i] == None { continue; }
      var fd := files[i].value;
      assert fd in Devices(files) && contents[i] == Some(fd.incoming);
      ghost var all := Events(fd.incoming);
      var log := ReadLog(fd);
      AppendKeepsMembers(events, log, Flatten(Readable(contents[..i])), all);
      AppendKeepsValid(events, log);
      events := events + log;
    }
    assert contents[..|files|] == contents;
  }

  /** Failed writes are ignored and writing goes on; `appended` counts the events before the first failure. */
  method WriteLog(events: seq<Event>, fd: Descriptor) returns (appended: nat)
    requires AllValid(ValidEvent, events) && fd.outgoing == []
    modifies fd`outgoing, fd`calls
    ensures appended <= |events| && old(fd.calls) <= fd.calls
    ensures appended == |events| <==> Smooth(fd.plan, old(fd.calls), fd.calls)
    ensures EncodeAll(EncodeEvent, events[..appended]) <= fd.outgoing
    ensures appended == |events| ==> fd.outgoing == EncodeAll(EncodeEvent, events)
  {
    hide EncodeEvent, EncodeAll;
    var writer := new ReplayWriter(fd, 5);
    var failed := false;
    appended := 0;
    for i := 0 to |events|
      invariant writer.fd == fd && fresh(writer) && old(fd.calls) <= fd.calls
      invariant appended <= i && (failed <==> appended < i) && (failed <==> !Smooth(fd.plan, old(fd.calls), fd.calls))
      invariant !failed ==> writer.Valid() && writer.written == events[..i]
      invariant EncodeAll(EncodeEvent, events[..appended]) <= fd.outgoing
    {
      ghost var from := fd.calls;
      var ok := writer.AppendEvent(events[i]);
      assert events[..i + 1] == events[..i] + [events[i]];
      assert Smooth(fd.plan, old(fd.calls), fd.calls)
        <==> Smooth(fd.plan, old(fd.calls), from) && Smooth(fd.plan, from, fd.calls);
      if !ok { failed := true; }
      if !failed { appended := appended + 1; }
    }
    assert events[..|events|] == events;
  }

  /** The sorted permutation of all events of the logs. */
  ghost predicate IsTimeline(logs: seq<seq<Event>>, es: seq<Event>) {
    Sorted(es) && multiset(es) == multiset(Flatten(logs))
  }

  /** Merging logs of distinct roles has one result, in whatever order the files are named and however the
      events are sorted; and every node's log can be read off it. */
  ghost predicate IsCanonical(logs: seq<seq<Event>>, es: seq<Event>) {
    forall roles :: NodeLogs(logs, roles) ==>
      && (forall i :: 0 <= i < |logs| ==> OfRole(es, roles[i]) == logs[i])
      && (forall named, other :: multiset(named) == multiset(logs) && IsTimeline(named, other) ==> other == es)
  }

  lemma TimelineIsCanonical(logs: seq<seq<Event>>, es: seq<Event>)
    requires IsTimeline(logs, es)
    ensures IsCanonical(logs, es)
  {
    hide Sorted, Less, Flatten, NodeLog, OfRole;
    forall roles | NodeLogs(logs, roles)
      ensures forall i :: 0 <= i < |logs| ==> OfRole(es, roles[i]) == logs[i]
      ensures forall named, other :: multiset(named) == multiset(logs) && IsTimeline(named, other) ==> other == es
    {
      CanonicalMerge(logs, roles, es);
      forall named, other | multiset(named) == multiset(logs) && IsTimeline(named, other) ensures other == es {
        FileOrderIrrelevant(named, logs);
      }
    }
  }

  /** What the first records of a file hold stays readable whatever follows them. */
  lemma FirstEventsReadBack(events: seq<Event>, file: seq<byte>)
    requires AllValid(ValidEvent, events) && EncodeAll(EncodeEvent, events) <= file
    ensures events <= Events(file)
  {
    hide ParseEvent, EncodeEvent, EncodeAll;
    ReplayAgrees();
    var tail := file[|EncodeAll(EncodeEvent, events)|..];
    assert file == EncodeAll(EncodeEvent, events) + tail;
    DecodeEncode(ParseEvent, EncodeEvent, ValidEvent, events, tail);
  }

  /** The merge program: read every log that opens, sort, write. `merged` is what was sorted: events of the
      logs, and unless a read that was made errs, all of them: their canonical timeline. The output reads back
      as `merged` unless a write that was made errs, and then still begins with the events before that write. */
  method Merge(files: seq<Option<Descriptor>>, out: Descriptor) returns (merged: seq<Event>, appended: nat)
    requires Distinct(files) && out !in Devices(files) && out.outgoing == []
    modifies Devices(files), out
    ensures forall i, j :: 0 <= i < j < |merged| ==>
      var a, b := merged[i], merged[j];
      && a.timestamp <= b.timestamp
      && (a.timestamp == b.timestamp ==> a.sequence <= b.sequence)
      && (a.timestamp == b.timestamp && a.sequence == b.sequence ==> a.nodeRole <= b.nodeRole)
    ensures Sorted(merged) && multiset(merged) <= multiset(Flatten(Readable(old(Contents(files)))))
    ensures AllSmooth(files) ==> IsTimeline(Readable(old(Contents(files))), merged)
    ensures AllSmooth(files) ==> IsCanonical(Readable(old(Contents(files))), merged)
    ensures appended <= |merged| && merged[..appended] <= Events(out.outgoing)
    ensures appended == |merged| <==> Smooth(out.plan, old(out.calls), out.calls)
    ensures appended == |merged| ==> Events(out.outgoing) == merged
  {
    hide Events, Flatten, IsCanonical, NodeLogs, Less, Sorted, Smooth;
    ghost var logs := Readable(Contents(files));
    var events := ReadLogs(files);
    merged := Sort(events);
    PermutationIsValid(events, merged);
    SortedInFields(merged);
    appended := WriteLog(merged, out);
    FirstEventsReadBack(merged[..appended], out.outgoing);
    ReadsBack(merged);
    hide EncodeAll, AllValid;
    if AllSmooth(files) {
      TimelineIsCanonical(logs, merged);
    }
  }

  lemma SameMembers(a: seq<Event>, b: seq<Event>)
    requires multiset(a) == multiset(b)
    ensures |a| == |b| && forall e :: e in a <==> e in b
  {
    assert |multiset(a)| == |multiset(b)|;
    forall e ensures e in a <==> e in b {
      assert e in multiset(a) <==> e in multiset(b);
    }
  }

  lemma SortedSameLast(a: seq<Event>, b: seq<Event>)
    requires Sorted(a) && Sorted(b) && multiset(a) == multiset(b) && TiesAreEqual(a) && a != []
    ensures |a| == |b| && a[|a| - 1] == b[|b| - 1]
  {
    hide Less;
    SameMembers(a, b);
    var n := |a| - 1;
    assert a[n] in a && b[n] in b;
    var i :| 0 <= i < |b| && b[i] == a[n];
    var j :| 0 <= j < |a| && a[j] == b[n];
  }

  lemma FrontStaysSorted(a: seq<Event>)
    requires Sorted(a) && a != []
    ensures Sorted(a[..|a| - 1])
    ensures TiesAreEqual(a) ==> TiesAreEqual(a[..|a| - 1])
  {
    hide Less;
  }

  lemma WithoutLast(a: seq<Event>)
    requires a != []
    ensures var n := |a| - 1; a == a[..n] + [a[n]] && multiset(a[..n]) == multiset(a) - multiset{a[n]}
  {
    assert a == a[..|a| - 1] + [a[|a| - 1]];
  }

  /** Two sorted lists of the same events are the same list if only equal events tie. */
  lemma {:induction false} SortedIsUnique(a: seq<Event>, b: seq<Event>)
    requires Sorted(a) && Sorted(b) && multiset(a) == multiset(b) && TiesAreEqual(a)
    ensures a == b
    decreases |a|
  {
    hide Less, Sorted, TiesAreEqual;
    SameMembers(a, b);
    if a != [] {
      var n := |a| - 1;
      SortedSameLast(a, b);
      WithoutLast(a);
      WithoutLast(b);
      FrontStaysSorted(a);
      FrontStaysSorted(b);
      SortedIsUnique(a[..n], b[..n]);
    }
  }

  /** Swapping two different events that tie gives another sorted permutation. */
  lemma TiesCanBeSwapped(a: seq<Event>, i: nat, j: nat)
    requires Sorted(a) && i < |a| && j < |a| && a[i] != a[j] && !Less(a[i], a[j]) && !Less(a[j], a[i])
    ensures var b := a[i := a[j]][j := a[i]]; Sorted(b) && multiset(b) == multiset(a) && b != a
  {
    var b := a[i := a[j]][j := a[i]];
    assert a[i].timestamp == a[j].timestamp && a[i].sequence == a[j].sequence && a[i].nodeRole == a[j].nodeRole;
    forall p, q | 0 <= p < q < |b| ensures !Less(b[q], b[p]) {
      assert !Less(a[q], a[p]);
    }
    assert b[i] == a[j];
  }

  /** The merged order is determined by the events alone, whatever sorting algorithm is used, exactly
      when only equal events tie. */
  lemma CanonicalExactly(a: seq<Event>)
    requires Sorted(a)
    ensures (forall b :: Sorted(b) && multiset(b) == multiset(a) ==> b == a) <==> TiesAreEqual(a)
  {
    if TiesAreEqual(a) {
      forall b | Sorted(b) && multiset(b) == multiset(a) ensures b == a {
        SortedIsUnique(a, b);
      }
    } else {
      var x, y :| x in a && y in a && x != y && !Less(x, y) && !Less(y, x);
      var i :| 0 <= i < |a| && a[i] == x;
      var j :| 0 <= j < |a| && a[j] == y;
      hide Less, Sorted;
      TiesCanBeSwapped(a, i, j);
    }
  }

  lemma {:induction false} FlattenMembers(logs: seq<seq<Event>>, e: Event) returns (i: nat)
    requires e in Flatten(logs)
    ensures i < |logs| && e in logs[i]
  {
    var n := |logs| - 1;
    if e in logs[n] { i := n; } else { i := FlattenMembers(logs[..n], e); }
  }

  lemma NodeLogsTieOnlyWhenEqual(logs: seq<seq<Event>>, roles: seq<byte>)
    requires NodeLogs(logs, roles)
    ensures TiesAreEqual(Flatten(logs))
  {
    forall x, y | x in Flatten(logs) && y in Flatten(logs) && x != y ensures Less(x, y) || Less(y, x) {
      var i := FlattenMembers(logs, x);
      var k := FlattenMembers(logs, y);
      var p :| 0 <= p < |logs[i]| && logs[i][p] == x;
      var q :| 0 <= q < |logs[k]| && logs[k][q] == y;
      assert x.nodeRole == roles[i] && y.nodeRole == roles[k];
      if i == k {
        assert NodeLog(logs[i], roles[i]);
        assert x.sequence != y.sequence;
      }
    }
  }

  lemma {:induction false} OfRoleCounts(es: seq<Event>, role: byte)
    ensures forall e :: multiset(OfRole(es, role))[e] == if e.nodeRole == role then multiset(es)[e] else 0
  {
    if es != [] {
      var n := |es| - 1;
      OfRoleCounts(es[..n], role);
      assert es == es[..n] + [es[n]];
    }
  }

  lemma {:induction false} OfRoleSorted(es: seq<Event>, role: byte)
    requires Sorted(es)
    ensures Sorted(OfRole(es, role)) && forall e :: e in OfRole(es, role) ==> e in es
  {
    hide Less;
    if es != [] {
      var n := |es| - 1;
      OfRoleSorted(es[..n], role);
      forall e | e in OfRole(es[..n], role) ensures !Less(es[n], e) {
        assert e in es[..n];
      }
    }
  }

  lemma {:induction false} OfRoleAppend(a: seq<Event>, b: seq<Event>, role: byte)
    ensures OfRole(a + b, role) == OfRole(a, role) + OfRole(b, role)
  {
    if b == [] {
      assert a + b == a;
    } else {
      assert (a + b)[..|a + b| - 1] == a + b[..|b| - 1];
      OfRoleAppend(a, b[..|b| - 1], role);
    }
  }

  lemma {:induction false} OfRoleOfLog(log: seq<Event>, own: byte, role: byte)
    requires forall i :: 0 <= i < |log| ==> log[i].nodeRole == own
    ensures OfRole(log, role) == if own == role then log else []
  {
    if log != [] {
      var n := |log| - 1;
      OfRoleOfLog(log[..n], own, role);
      assert log == log[..n] + [log[n]];
    }
  }

  lemma AllButLastLog(logs: seq<seq<Event>>, roles: seq<byte>)
    requires NodeLogs(logs, roles) && logs != []
    ensures var n := |logs| - 1;
      && NodeLogs(logs[..n], roles[..n]) && roles[n] !in roles[..n]
      && forall i :: 0 <= i < |logs[n]| ==> logs[n][i].nodeRole == roles[n]
  {
  }

  lemma {:induction false} AbsentRole(logs: seq<seq<Event>>, roles: seq<byte>, role: byte)
    requires NodeLogs(logs, roles) && role !in roles
    ensures OfRole(Flatten(logs), role) == []
  {
    if logs != [] {
      hide OfRole, NodeLogs, NodeLog;
      AllButLastLog(logs, roles);
      var n := |logs| - 1;
      AbsentRole(logs[..n], roles[..n], role);
      OfRoleAppend(Flatten(logs[..n]), logs[n], role);
      OfRoleOfLog(logs[n], roles[n], role);
    }
  }

  lemma {:induction false} PresentRole(logs: seq<seq<Event>>, roles: seq<byte>, i: nat)
    requires NodeLogs(logs, roles) && i < |logs|
    ensures OfRole(Flatten(logs), roles[i]) == logs[i]
  {
    hide OfRole, NodeLog;
    AllButLastLog(logs, roles);
    var n := |logs| - 1;
    OfRoleAppend(Flatten(logs[..n]), logs[n], roles[i]);
    OfRoleOfLog(logs[n], roles[n], roles[i]);
    if i == n {
      AbsentRole(logs[..n], roles[..n], roles[i]);
    } else {
      PresentRole(logs[..n], roles[..n], i);
    }
  }

  /** Canonical merge: for logs of distinct roles, each with nondecreasing timestamps and increasing
      sequences, every sorted permutation of their events is the same timeline, and restricting it to a
      node gives back that node's log in its original order. */
  lemma CanonicalMerge(logs: seq<seq<Event>>, roles: seq<byte>, merged: seq<Event>)
    requires NodeLogs(logs, roles) && Sorted(merged) && multiset(merged) == multiset(Flatten(logs))
    ensures forall other :: Sorted(other) && multiset(other) == multiset(Flatten(logs)) ==> other == merged
    ensures forall i :: 0 <= i < |logs| ==> OfRole(merged, roles[i]) == logs[i]
    ensures forall i, j :: 0 <= i < j < |merged| ==> InOrder(merged[i], merged[j])
  {
    SortedInFields(merged);
    hide Less, InOrder;
    NodeLogsTieOnlyWhenEqual(logs, roles);
    SameMembers(merged, Flatten(logs));
    assert TiesAreEqual(merged);
    CanonicalExactly(merged);
    forall i | 0 <= i < |logs| ensures OfRole(merged, roles[i]) == logs[i] {
      RestrictsToLog(logs, roles, merged, i);
    }
  }

  lemma NodeLogSorted(log: seq<Event>, role: byte)
    requires NodeLog(log, role)
    ensures Sorted(log) && TiesAreEqual(log)
  {
    forall x, y | x in log && y in log && x != y ensures Less(x, y) || Less(y, x) {
      var p :| 0 <= p < |log| && log[p] == x;
      var q :| 0 <= q < |log| && log[q] == y;
      assert x.sequence != y.sequence;
    }
  }

  lemma RestrictsToLog(logs: seq<seq<Event>>, roles: seq<byte>, merged: seq<Event>, i: nat)
    requires NodeLogs(logs, roles) && Sorted(merged) && multiset(merged) == multiset(Flatten(logs))
    requires i < |logs|
    ensures OfRole(merged, roles[i]) == logs[i]
  {
    hide Less, Sorted;
    var role := roles[i];
    OfRoleCounts(merged, role);
    OfRoleCounts(Flatten(logs), role);
    PresentRole(logs, roles, i);
    OfRoleSorted(merged, role);
    NodeLogSorted(logs[i], role);
    assert multiset(OfRole(merged, role)) == multiset(logs[i]);
    SortedIsUnique(logs[i], OfRole(merged, role));
  }

  lemma {:induction false} FlattenAppend(a: seq<seq<Event>>, b: seq<seq<Event>>)
    ensures Flatten(a + b) == Flatten(a) + Flatten(b)
  {
    if b == [] {
      assert a + b == a;
    } else {
      var n := |b| - 1;
      assert (a + b)[..|a| + n] == a + b[..n];
      FlattenAppend(a, b[..n]);
    }
  }

  function Without<T>(s: seq<T>, i: nat): (rest: seq<T>)
    requires i < |s|
    ensures |rest| == |s| - 1
  {
    s[..i] + s[i + 1..]
  }

  lemma WithoutCounts<T>(s: seq<T>, i: nat)
    requires i < |s|
    ensures multiset(Without(s, i)) == multiset(s) - multiset{s[i]}
  {
    assert s == s[..i] + [s[i]] + s[i + 1..];
  }

  lemma FlattenAround(before: seq<seq<Event>>, log: seq<Event>, after: seq<seq<Event>>)
    ensures Flatten(before + [log] + after) == Flatten(before) + log + Flatten(after)
  {
    FlattenAppend(before + [log], after);
    assert (before + [log])[..|before|] == before;
  }

  lemma MiddleCounts(a: seq<Event>, b: seq<Event>, c: seq<Event>)
    ensures multiset(a + b + c) == multiset(a + c) + multiset(b)
  {
  }

  lemma AroundIsAll<T>(s: seq<T>, i: nat)
    requires i < |s|
    ensures s == s[..i] + [s[i]] + s[i + 1..]
  {
  }

  lemma FlattenWithout(logs: seq<seq<Event>>, i: nat)
    requires i < |logs|
    ensures multiset(Flatten(logs)) == multiset(Flatten(Without(logs, i))) + multiset(logs[i])
  {
    hide Flatten;
    AroundIsAll(logs, i);
    FlattenAround(logs[..i], logs[i], logs[i + 1..]);
    FlattenAppend(logs[..i], logs[i + 1..]);
    MiddleCounts(Flatten(logs[..i]), logs[i], Flatten(logs[i + 1..]));
  }

  /** The order in which the files are named does not matter. */
  lemma {:induction false} FileOrderIrrelevant(a: seq<seq<Event>>, b: seq<seq<Event>>)
    requires multiset(a) == multiset(b)
    ensures multiset(Flatten(a)) == multiset(Flatten(b))
    decreases |a|
  {
    if a == [] {
      assert |multiset(b)| == |multiset(a)| == 0;
    } else {
      hide *;
      assert a[0] in multiset(b);
      var i :| 0 <= i < |b| && b[i] == a[0];
      WithoutCounts(a, 0);
      WithoutCounts(b, i);
      FileOrderIrrelevant(Without(a, 0), Without(b, i));
      FlattenWithout(a, 0);
      FlattenWithout(b, i);
    }
  }
}
