/**
 Which command words the controller accepts. The table of senders refines a map from senders to
 their last word, and the 9-bit ring and 5-bit session refine unbounded numbers: from boot on, words
 are sorted out as if each carried its full number and its sender's restarts, whether the sender has
 sessions or none. Nothing is applied twice as long as no word of an earlier session comes after one
 of a later.
 */
module CommandAcceptance {
  import opened CommandWords
  import opened HvacRuntime
  import Division

  // ---- Looking senders up -------------------------------------------------------------

  predicate Matches(s: Source, mac: seq<bv8>) {
    s.active && s.mac == mac
  }

  lemma {:induction false} FoundIsFirst(sources: seq<Source>, mac: seq<bv8>, i: nat)
    requires i <= |sources|
    ensures var k := FindSource(sources, mac, i);
            && (k < |sources| ==> Matches(sources[k], mac))
            && forall j :: i <= j < k ==> !Matches(sources[j], mac)
    decreases |sources| - i
  {
    if i < |sources| && !Matches(sources[i], mac) {
      FoundIsFirst(sources, mac, i + 1);
    }
  }

  lemma {:induction false} FirstIsFound(sources: seq<Source>, mac: seq<bv8>, i: nat, k: nat)
    requires i <= k <= |sources| && (k < |sources| ==> Matches(sources[k], mac))
    requires forall j :: i <= j < k ==> !Matches(sources[j], mac)
    ensures FindSource(sources, mac, i) == k
    decreases |sources| - i
  {
    if i < k {
      FirstIsFound(sources, mac, i + 1, k);
    }
  }

  lemma {:induction false} FreeIsInactive(sources: seq<Source>, i: nat)
    requires i <= |sources|
    ensures var k := FindFree(sources, i);
            && (k < |sources| ==> !sources[k].active)
            && forall j :: i <= j < k ==> sources[j].active
    decreases |sources| - i
  {
    if i < |sources| && sources[i].active {
      FreeIsInactive(sources, i + 1);
    }
  }

  // ---- The table as a map -------------------------------------------------------------

  /** What is remembered of a sender. */
  datatype Memory = Unknown | Known(last: nat, session: nat)

  /** The default sender, with no MAC, is always known. */
  function Recall(t: Tracking, mac: seq<bv8>): Memory {
    if mac == [] then Known(t.last, t.session)
    else
      var k := FindSource(t.sources, mac, 0);
      if k == |t.sources| then Unknown else Known(t.sources[k].last, t.sources[k].session)
  }

  predicate HasRoom(t: Tracking) {
    FindFree(t.sources, 0) < |t.sources|
  }

  /** Whether a word is accepted, by the sender's memory alone. */
  predicate Welcome(m: Memory, room: bool, cmd: CommandWord) {
    match m
    case Unknown => room
    case Known(last, session) => Accepts(last, session, cmd)
  }

  lemma OwnEntry(sources: seq<Source>, mac: seq<bv8>, k: nat, entry: Source)
    requires k == EntryFor(sources, mac) < |sources| && Matches(entry, mac)
    ensures FindSource(sources[k := entry], mac, 0) == k
  {
    FoundIsFirst(sources, mac, 0);
    FirstIsFound(sources[k := entry], mac, 0, k);
  }

  lemma OtherEntry(sources: seq<Source>, mac: seq<bv8>, other: seq<bv8>, k: nat, entry: Source)
    requires k == EntryFor(sources, mac) < |sources| && Matches(entry, mac) && other != mac
    ensures FindSource(sources[k := entry], other, 0) == FindSource(sources, other, 0)
    ensures FindSource(sources, other, 0) != k
  {
    FoundIsFirst(sources, mac, 0);
    FoundIsFirst(sources, other, 0);
    FreeIsInactive(sources, 0);
    FirstIsFound(sources[k := entry], other, 0, FindSource(sources, other, 0));
  }

  /** The table afterwards: the sender's entry is the word's when it is accepted, and nothing changes else. */
  lemma TableOfChecked(sources: seq<Source>, cmd: CommandWord, mac: seq<bv8>)
    ensures var ((after, accepted), k) := (CheckedSource(sources, cmd, mac), EntryFor(sources, mac));
            if accepted then k < |sources| && after == sources[k := Source(mac, cmd.number, cmd.session, true)]
            else after == sources
  {
    FoundIsFirst(sources, mac, 0);
    hide FindSource, FindFree, NewerSeq;
  }

  /** The table is a map: a word is judged by its sender's memory, and changes no other sender's. */
  lemma TableIsAMap(t: Tracking, cmd: CommandWord, mac: seq<bv8>, other: seq<bv8>)
    ensures var (after, accepted) := Checked(t, cmd, mac);
            && accepted == Welcome(Recall(t, mac), HasRoom(t), cmd)
            && Recall(after, mac) == (if accepted then Known(cmd.number, cmd.session) else Recall(t, mac))
            && (other != mac ==> Recall(after, other) == Recall(t, other))
            && (!accepted ==> after == t)
  {
    if mac != [] {
      var k := EntryFor(t.sources, mac);
      TableOfChecked(t.sources, cmd, mac);
      if k < |t.sources| {
        var entry := Source(mac, cmd.number, cmd.session, true);
        OwnEntry(t.sources, mac, k, entry);
        if other != mac {
          OtherEntry(t.sources, mac, other, k, entry);
        }
      }
    }
    hide FindSource, FindFree, NewerSeq;
  }

  /**
   The verdict tells what the word did: stale and untouched; a sync, which changes nothing but what is remembered
   of its sender; or applied, with the filter time reset exactly when it says so.
   */
  lemma VerdictTells(r: Runtime, cmd: CommandWord, mac: seq<bv8>)
    ensures var (s, verdict) := Commanded(r, cmd, mac);
            && verdict.stale == !verdict.accepted
            && (verdict.syncRequested <==> verdict.accepted && cmd.syncRequest)
            && (verdict.filterReset ==> verdict.accepted && !cmd.syncRequest && cmd.filterReset)
            && (verdict.syncRequested || verdict.stale ==> s == r.(tracking := s.tracking))
            && s.minutes == if verdict.filterReset then r.minutes.(filterSeconds := 0) else r.minutes
  {
    hide Checked, AppliedSettings;
  }

  /** A rejected word leaves the whole runtime as it was. */
  lemma RejectedChangesNothing(r: Runtime, cmd: CommandWord, mac: seq<bv8>)
    ensures !Commanded(r, cmd, mac).1.accepted ==> Commanded(r, cmd, mac) == (r, STALE)
    ensures Commanded(r, cmd, mac).1.accepted == Welcome(Recall(r.tracking, mac), HasRoom(r.tracking), cmd)
  {
    TableIsAMap(r.tracking, cmd, mac, mac);
    hide Checked, Applied, Recall, Welcome, HasRoom;
  }

  // ---- Distinct senders ---------------------------------------------------------------

  predicate DistinctSenders(sources: seq<Source>) {
    forall i, j :: 0 <= i < j < |sources| && sources[i].active && sources[j].active ==> sources[i].mac != sources[j].mac
  }

  lemma SendersStayDistinct(t: Tracking, cmd: CommandWord, mac: seq<bv8>)
    requires DistinctSenders(t.sources)
    ensures DistinctSenders(Checked(t, cmd, mac).0.sources) && |Checked(t, cmd, mac).0.sources| == |t.sources|
  {
    if mac != [] {
      TableOfChecked(t.sources, cmd, mac);
      FoundIsFirst(t.sources, mac, 0);
      FreeIsInactive(t.sources, 0);
    }
    hide CheckedSource, FindSource, FindFree, Accepts;
  }

  // ---- Unbounded numbers --------------------------------------------------------------

  /**
   A word as it arrives, with the sender's restarts before it, from 1, and the full number that its ring
   number stands for. A word of a sender without sessions has epoch 0.
   */
  datatype Arrival = Arrival(mac: seq<bv8>, cmd: CommandWord, epoch: nat, number: nat)

  /** The session of an epoch: 0 for none, and 1 to 31 over and over. */
  function SessionOf(epoch: nat): nat {
    if epoch == 0 then 0 else (epoch - 1) % MAX_SESSION + 1
  }

  lemma SessionsFollow(epoch: nat)
    ensures NextSession(SessionOf(epoch)) == SessionOf(epoch + 1) && (SessionOf(epoch) == 0 <==> epoch == 0)
  {
    if epoch > 0 {
      Division.Shift((epoch - 1) % MAX_SESSION + 1, MAX_SESSION, (epoch - 1) / MAX_SESSION);
    }
  }

  /** Sessions less than 31 restarts apart are different. */
  lemma SessionsRepeatLate(epoch: nat, other: nat)
    requires epoch > 0 && other > 0 && epoch < other + MAX_SESSION && other < epoch + MAX_SESSION
    ensures SessionOf(epoch) == SessionOf(other) <==> epoch == other
  {
    if epoch < other {
      Division.Distinct(epoch - 1, other - 1, MAX_SESSION);
    } else if other < epoch {
      Division.Distinct(other - 1, epoch - 1, MAX_SESSION);
    }
  }

  function After(t: Tracking, arrivals: seq<Arrival>, n: nat): Tracking
    requires n <= |arrivals|
  {
    if n == 0 then t else Checked(After(t, arrivals, n - 1), arrivals[n - 1].cmd, arrivals[n - 1].mac).0
  }

  predicate AcceptedAt(t: Tracking, arrivals: seq<Arrival>, n: nat)
    requires n < |arrivals|
  {
    Checked(After(t, arrivals, n), arrivals[n].cmd, arrivals[n].mac).1
  }

  /** What was last taken from a sender: nothing yet, or the word of an epoch and a full number. */
  datatype Place = Nothing | Place(epoch: nat, number: nat)

  /** Later in the sender's own order; no session counts as the earliest. */
  predicate Before(a: Place, b: Place) {
    && b.Place?
    && (a.Nothing? || a.epoch < b.epoch || (a.epoch == b.epoch && a.number < b.number))
  }

  /** Any word comes after nothing, and after a multiple of 512. */
  predicate Open(last: Place) {
    last.Nothing? || last.number % SEQS == 0
  }

  /** The next word is of another session than the last; a word without one goes on in the session it finds. */
  predicate Renews(last: Place, next: Place)
    requires last.Place? && next.Place?
  {
    next.epoch != 0 && next.epoch != last.epoch
  }

  /** A word is taken when any would be, when it is of another session, or when its number is later. */
  predicate Takes(last: Place, next: Place)
    requires next.Place?
  {
    Open(last) || Renews(last, next) || last.number < next.number
  }

  function PlaceOf(a: Arrival): Place {
    Place(a.epoch, a.number)
  }

  /** The last place taken from `mac` if numbers and sessions were never cut short. */
  function LastTaken(arrivals: seq<Arrival>, mac: seq<bv8>, last: Place, n: nat): Place
    requires n <= |arrivals|
  {
    if n == 0 then last
    else
      var (before, a) := (LastTaken(arrivals, mac, last, n - 1), arrivals[n - 1]);
      if a.mac == mac && Takes(before, PlaceOf(a)) then PlaceOf(a) else before
  }

  /**
   The word of its place and, unless any word would be taken, of a session less than 31 restarts away
   and with a number at most 255 behind and 256 ahead where numbers decide.
   */
  predicate Fits(last: Place, a: Arrival) {
    && a.cmd.session == SessionOf(a.epoch) && a.cmd.number == a.number % SEQS
    && (!Open(last) ==>
          if Renews(last, PlaceOf(a)) then
            last.epoch == 0 || (a.epoch < last.epoch + MAX_SESSION && last.epoch < a.epoch + MAX_SESSION)
          else last.number <= a.number + 255 && a.number <= last.number + 256)
  }

  predicate InReach(arrivals: seq<Arrival>, mac: seq<bv8>, last: Place) {
    forall k :: 0 <= k < |arrivals| && arrivals[k].mac == mac ==> Fits(LastTaken(arrivals, mac, last, k), arrivals[k])
  }

  /** A sender of which nothing was taken is unknown, or known with a number that any word follows. */
  predicate Remembers(t: Tracking, mac: seq<bv8>, last: Place) {
    match last
    case Nothing => Recall(t, mac) in {Unknown, Known(0, 0)}
    case Place(epoch, number) => Recall(t, mac) == Known(number % SEQS, SessionOf(epoch))
  }

  /** A sender that is known, or would find a free entry. */
  predicate Admitted(t: Tracking, mac: seq<bv8>) {
    Recall(t, mac) != Unknown || HasRoom(t)
  }

  lemma WelcomeExactly(m: Memory, a: Arrival, last: Place, room: bool)
    requires last.Place? ==> m == Known(last.number % SEQS, SessionOf(last.epoch))
    requires last.Nothing? ==> m in {Unknown, Known(0, 0)}
    requires Fits(last, a) && (m == Unknown ==> room)
    ensures Welcome(m, room, a.cmd) == Takes(last, PlaceOf(a))
  {
    SessionsFollow(a.epoch);
    if !Open(last) {
      SessionsFollow(last.epoch);
      if Renews(last, PlaceOf(a)) {
        if last.epoch != 0 {
          SessionsRepeatLate(last.epoch, a.epoch);
        }
      } else {
        NewerMeansLater(last.number, a.number);
      }
    }
    hide NewerSeq, SessionOf;
  }

  lemma ArrivalStep(t: Tracking, a: Arrival, mac: seq<bv8>, last: Place)
    requires Admitted(t, mac) && Remembers(t, mac, last) && (a.mac == mac ==> Fits(last, a))
    ensures a.mac == mac ==> Checked(t, a.cmd, mac).1 == Takes(last, PlaceOf(a))
    ensures Remembers(Checked(t, a.cmd, a.mac).0, mac,
                      if a.mac == mac && Takes(last, PlaceOf(a)) then PlaceOf(a) else last)
  {
    TableIsAMap(t, a.cmd, a.mac, mac);
    if a.mac == mac {
      WelcomeExactly(Recall(t, mac), a, last, HasRoom(t));
    }
    hide Checked, Recall, Welcome, Takes, SessionOf, HasRoom;
  }

  /** A sender that is admitted now was admitted before. */
  lemma AdmittedBefore(t: Tracking, cmd: CommandWord, mac: seq<bv8>, other: seq<bv8>)
    requires Admitted(Checked(t, cmd, mac).0, other)
    ensures Admitted(t, other)
  {
    TableIsAMap(t, cmd, mac, other);
    if mac != [] {
      TableOfChecked(t.sources, cmd, mac);
      RoomBefore(t.sources, EntryFor(t.sources, mac), Source(mac, cmd.number, cmd.session, true));
    }
    hide Recall, FindFree, CheckedSource, Welcome, EntryFor;
  }

  lemma RoomBefore(sources: seq<Source>, k: nat, entry: Source)
    requires entry.active
    ensures k < |sources| && FindFree(sources[k := entry], 0) < |sources| ==> FindFree(sources, 0) < |sources|
  {
    if k < |sources| {
      FreeIsInactive(sources, 0);
      FreeIsInactive(sources[k := entry], 0);
    }
  }

  /**
   However the words of all senders interleave, and whether a sender has sessions or none, restarts or
   not: while it is admitted, what is remembered of it is the last place taken, and a word is accepted
   exactly when it is admitted and the word is taken.
   */
  lemma {:induction false} RingIsUnbounded(t: Tracking, arrivals: seq<Arrival>, mac: seq<bv8>, last: Place, n: nat)
    requires n <= |arrivals| && InReach(arrivals, mac, last) && Remembers(t, mac, last)
    ensures Admitted(After(t, arrivals, n), mac) ==>
              Remembers(After(t, arrivals, n), mac, LastTaken(arrivals, mac, last, n))
    ensures n < |arrivals| && arrivals[n].mac == mac ==>
              (AcceptedAt(t, arrivals, n) <==>
                 Admitted(After(t, arrivals, n), mac)
                 && Takes(LastTaken(arrivals, mac, last, n), PlaceOf(arrivals[n])))
  {
    hide Checked, Remembers, Takes, Fits, Recall, HasRoom, Welcome;
    if n > 0 {
      RingIsUnbounded(t, arrivals, mac, last, n - 1);
      var before := After(t, arrivals, n - 1);
      if Admitted(After(t, arrivals, n), mac) {
        AdmittedBefore(before, arrivals[n - 1].cmd, arrivals[n - 1].mac, mac);
        ArrivalStep(before, arrivals[n - 1], mac, LastTaken(arrivals, mac, last, n - 1));
      }
    }
    if n < |arrivals| && arrivals[n].mac == mac {
      var now := After(t, arrivals, n);
      if Admitted(now, mac) {
        ArrivalStep(now, arrivals[n], mac, LastTaken(arrivals, mac, last, n));
      } else {
        TableIsAMap(now, arrivals[n].cmd, mac, mac);
        TurnedAway(now, arrivals[n].cmd, mac);
      }
    }
  }

  lemma TurnedAway(t: Tracking, cmd: CommandWord, mac: seq<bv8>)
    requires !Admitted(t, mac)
    ensures !Welcome(Recall(t, mac), HasRoom(t), cmd)
  {
  }

  // ---- From boot ----------------------------------------------------------------------

  /** No sender is known, as after boot and after a reset of the numbers. */
  predicate Blank(t: Tracking) {
    (forall i :: 0 <= i < |t.sources| ==> !t.sources[i].active) && t.last == t.session == 0
  }

  lemma BootIsBlank(r: Runtime, period: u16, duration: u16)
    ensures Blank(Initial(period, duration).tracking) && |Initial(period, duration).tracking.sources| == MAX_SOURCES
    ensures Blank(Forgotten(r).tracking)
  {
  }

  /** The senders that have an entry: as many as there are entries, in the order of their first words. */
  function Senders(arrivals: seq<Arrival>, slots: nat, n: nat): seq<seq<bv8>>
    requires n <= |arrivals|
  {
    if n == 0 then []
    else
      var (before, mac) := (Senders(arrivals, slots, n - 1), arrivals[n - 1].mac);
      if mac == [] || mac in before || |before| >= slots then before else before + [mac]
  }

  predicate Filled(sources: seq<Source>, senders: seq<seq<bv8>>) {
    && |senders| <= |sources|
    && (forall i :: 0 <= i < |senders| ==> Matches(sources[i], senders[i]))
    && (forall i :: |senders| <= i < |sources| ==> !sources[i].active)
  }

  lemma {:induction false} FirstFreeIs(sources: seq<Source>, i: nat, k: nat)
    requires i <= k <= |sources| && (k < |sources| ==> !sources[k].active)
    requires forall j :: i <= j < k ==> sources[j].active
    ensures FindFree(sources, i) == k
    decreases |sources| - i
  {
    if i < k {
      FirstFreeIs(sources, i + 1, k);
    }
  }

  lemma FilledFinds(sources: seq<Source>, senders: seq<seq<bv8>>, mac: seq<bv8>)
    requires Filled(sources, senders)
    ensures FindSource(sources, mac, 0) < |sources| <==> mac in senders
    ensures FindFree(sources, 0) == |senders|
  {
    var k := FindSource(sources, mac, 0);
    FoundIsFirst(sources, mac, 0);
    if mac in senders {
      var j :| 0 <= j < |senders| && senders[j] == mac;
      assert Matches(sources[j], mac);
    } else if k < |sources| {
      assert k < |senders| && senders[k] == mac;
    }
    FirstFreeIs(sources, 0, |senders|);
  }

  lemma FilledStep(sources: seq<Source>, senders: seq<seq<bv8>>, cmd: CommandWord, mac: seq<bv8>)
    requires Filled(sources, senders) && mac != []
    ensures var after := CheckedSource(sources, cmd, mac).0;
            && |after| == |sources|
            && Filled(after, if mac in senders || |senders| >= |sources| then senders else senders + [mac])
  {
    FilledFinds(sources, senders, mac);
    FoundIsFirst(sources, mac, 0);
    TableOfChecked(sources, cmd, mac);
    if mac !in senders && |senders| < |sources| {
      FirstWordIsAccepted(sources, cmd, mac);
    }
    hide CheckedSource, FindSource, FindFree;
  }

  lemma FirstWordIsAccepted(sources: seq<Source>, cmd: CommandWord, mac: seq<bv8>)
    requires FindSource(sources, mac, 0) == |sources| && FindFree(sources, 0) < |sources|
    ensures CheckedSource(sources, cmd, mac).1
  {
    hide NewerSeq;
  }

  lemma {:induction false} EntriesFill(t: Tracking, arrivals: seq<Arrival>, n: nat)
    requires Blank(t) && n <= |arrivals|
    ensures |After(t, arrivals, n).sources| == |t.sources|
    ensures Filled(After(t, arrivals, n).sources, Senders(arrivals, |t.sources|, n))
  {
    hide CheckedSource, Filled;
    if n == 0 {
      NoneFilled(t.sources);
    } else {
      EntriesFill(t, arrivals, n - 1);
      if arrivals[n - 1].mac != [] {
        FilledStep(After(t, arrivals, n - 1).sources, Senders(arrivals, |t.sources|, n - 1),
                   arrivals[n - 1].cmd, arrivals[n - 1].mac);
      }
    }
  }

  lemma NoneFilled(sources: seq<Source>)
    requires forall i :: 0 <= i < |sources| ==> !sources[i].active
    ensures Filled(sources, [])
  {
  }

  /** The default sender is always admitted, and of the others as many as there are entries, first come first served. */
  lemma AdmittedExactly(t: Tracking, arrivals: seq<Arrival>, mac: seq<bv8>, n: nat)
    requires Blank(t) && n <= |arrivals|
    ensures Admitted(After(t, arrivals, n), mac)
      <==> mac == [] || mac in Senders(arrivals, |t.sources|, n) || |Senders(arrivals, |t.sources|, n)| < |t.sources|
  {
    EntriesFill(t, arrivals, n);
    FilledFinds(After(t, arrivals, n).sources, Senders(arrivals, |t.sources|, n), mac);
    hide After, Senders, Filled, FindSource, FindFree;
  }

  lemma BlankRemembersNothing(t: Tracking, mac: seq<bv8>)
    requires Blank(t)
    ensures Remembers(t, mac, Nothing)
  {
    FoundIsFirst(t.sources, mac, 0);
    hide FindSource;
  }

  /**
   From boot, or from a reset, on: a word is accepted exactly when its sender is the default one, has an
   entry, or is heard while there is room for one, and its place is taken.
   */
  lemma RingIsUnboundedFromBoot(t: Tracking, arrivals: seq<Arrival>, mac: seq<bv8>, n: nat)
    requires Blank(t) && n < |arrivals| && arrivals[n].mac == mac && InReach(arrivals, mac, Nothing)
    ensures var senders := Senders(arrivals, |t.sources|, n);
            AcceptedAt(t, arrivals, n) <==>
              && (mac == [] || mac in senders || |senders| < |t.sources|)
              && Takes(LastTaken(arrivals, mac, Nothing, n), PlaceOf(arrivals[n]))
  {
    hide After, LastTaken, Takes, InReach, Admitted, Remembers, Blank, Senders, AcceptedAt;
    BlankRemembersNothing(t, mac);
    RingIsUnbounded(t, arrivals, mac, Nothing, n);
    AdmittedExactly(t, arrivals, mac, n);
  }

  // ---- Nothing twice ------------------------------------------------------------------

  predicate AtMost(a: Place, b: Place) {
    a == b || Before(a, b)
  }

  lemma PlacesAreOrdered(a: Place, b: Place, c: Place)
    requires AtMost(a, b) && AtMost(b, c)
    ensures AtMost(a, c) && (Before(b, c) ==> Before(a, c)) && (Before(a, b) ==> Before(a, c))
  {
  }

  /**
   From word `i` to word `n` none of an earlier session comes after one of a later, nor one without session
   after one with.
   */
  predicate InOrder(arrivals: seq<Arrival>, mac: seq<bv8>, last: Place, i: nat, n: nat) {
    forall k :: i <= k <= n && k < |arrivals| && arrivals[k].mac == mac && LastTaken(arrivals, mac, last, k).Place? ==>
      LastTaken(arrivals, mac, last, k).epoch <= arrivals[k].epoch
  }

  /** Before none of those words was the last one taken a multiple of 512. */
  predicate NoMultiples(arrivals: seq<Arrival>, mac: seq<bv8>, last: Place, i: nat, n: nat)
    requires n <= |arrivals|
  {
    forall k :: i <= k <= n && LastTaken(arrivals, mac, last, k).Place? ==> !Open(LastTaken(arrivals, mac, last, k))
  }

  predicate TakenAt(arrivals: seq<Arrival>, mac: seq<bv8>, last: Place, k: nat)
    requires k < |arrivals|
  {
    arrivals[k].mac == mac && Takes(LastTaken(arrivals, mac, last, k), PlaceOf(arrivals[k]))
  }

  lemma FewerWords(arrivals: seq<Arrival>, mac: seq<bv8>, last: Place, i: nat, n: nat)
    requires i < n <= |arrivals| && InOrder(arrivals, mac, last, i, n) && NoMultiples(arrivals, mac, last, i, n)
    ensures InOrder(arrivals, mac, last, i, n - 1) && NoMultiples(arrivals, mac, last, i, n - 1)
  {
    hide LastTaken, Open;
  }

  /** A word taken comes later than the one taken last. */
  lemma TakenComesLater(arrivals: seq<Arrival>, mac: seq<bv8>, last: Place, i: nat, n: nat)
    requires i <= n < |arrivals| && InOrder(arrivals, mac, last, i, n) && NoMultiples(arrivals, mac, last, i, n)
    requires TakenAt(arrivals, mac, last, n)
    ensures Before(LastTaken(arrivals, mac, last, n), PlaceOf(arrivals[n]))
  {
    var now := LastTaken(arrivals, mac, last, n);
    assert now.Place? ==> now.epoch <= arrivals[n].epoch && !Open(now);
    hide LastTaken, InOrder, NoMultiples;
  }

  /** So long what is taken only moves forward. */
  lemma {:induction false} TakenGrows(arrivals: seq<Arrival>, mac: seq<bv8>, last: Place, i: nat, n: nat)
    requires i <= n <= |arrivals| && InOrder(arrivals, mac, last, i, n) && NoMultiples(arrivals, mac, last, i, n)
    ensures AtMost(LastTaken(arrivals, mac, last, i), LastTaken(arrivals, mac, last, n))
    ensures n < |arrivals| && TakenAt(arrivals, mac, last, n) ==>
              Before(LastTaken(arrivals, mac, last, i), PlaceOf(arrivals[n]))
    decreases n
  {
    hide InOrder, NoMultiples, Takes, Before, Open;
    if i < n {
      FewerWords(arrivals, mac, last, i, n);
      TakenGrows(arrivals, mac, last, i, n - 1);
    }
    if n < |arrivals| && TakenAt(arrivals, mac, last, n) {
      TakenComesLater(arrivals, mac, last, i, n);
      PlacesAreOrdered(LastTaken(arrivals, mac, last, i), LastTaken(arrivals, mac, last, n), PlaceOf(arrivals[n]));
    }
  }

  /** From boot on no word is applied after itself or a later one, so nothing is applied twice. */
  lemma NothingIsAppliedTwice(t: Tracking, arrivals: seq<Arrival>, mac: seq<bv8>, i: nat, k: nat)
    requires Blank(t) && i < k < |arrivals| && arrivals[i].mac == arrivals[k].mac == mac
    requires InReach(arrivals, mac, Nothing)
    requires InOrder(arrivals, mac, Nothing, i + 1, k) && NoMultiples(arrivals, mac, Nothing, i + 1, k)
    ensures AcceptedAt(t, arrivals, i) && AcceptedAt(t, arrivals, k) ==>
              Before(PlaceOf(arrivals[i]), PlaceOf(arrivals[k]))
  {
    hide After, Takes, InReach, Before, Blank, Senders, AcceptedAt, InOrder, NoMultiples;
    RingIsUnboundedFromBoot(t, arrivals, mac, i);
    RingIsUnboundedFromBoot(t, arrivals, mac, k);
    if AcceptedAt(t, arrivals, i) && AcceptedAt(t, arrivals, k) {
      assert LastTaken(arrivals, mac, Nothing, i + 1) == PlaceOf(arrivals[i]);
      TakenGrows(arrivals, mac, Nothing, i + 1, k);
    }
  }

  // ---- Old words that are applied -----------------------------------------------------

  /**
   A word that was overtaken or applied already is applied after all exactly when it is of another session
   than what is remembered, and has one, or when the number remembered is 0.
   */
  lemma OldWordAppliedExactly(t: Tracking, cmd: CommandWord, mac: seq<bv8>, session: nat, last: nat, number: nat)
    requires Recall(t, mac) == Known(last % SEQS, session) && cmd.number == number % SEQS
    requires cmd.session in {0, session} ==> number <= last <= number + 255
    ensures Checked(t, cmd, mac).1 <==> cmd.session !in {0, session} || last % SEQS == 0
  {
    TableIsAMap(t, cmd, mac, mac);
    if cmd.session in {0, session} {
      NewerMeansLater(last, number);
    }
    hide Checked, Recall, NewerSeq;
  }

  /**
   So a word of an earlier session that is delayed past a restart is applied, and so is then the next word
   of the new session, even one that was applied before.
   */
  lemma DelayedSessionReplays(t: Tracking, late: CommandWord, again: CommandWord, mac: seq<bv8>, last: nat,
                              session: nat)
    requires Recall(t, mac) == Known(last, NextSession(session)) && session != 0
    requires late.session == session && again.session == NextSession(session) && again.number == last
    ensures Checked(t, late, mac).1 && Checked(Checked(t, late, mac).0, again, mac).1
  {
    SessionsDiffer(session);
    TableIsAMap(t, late, mac, mac);
    TableIsAMap(Checked(t, late, mac).0, again, mac, mac);
    hide Checked, Recall, NextSession;
  }

  /**
   And a word without session that is newer forgets the session remembered, so that the word before it is
   then applied once more: the default sender has both kinds.
   */
  lemma WordWithoutSessionReplays(t: Tracking, plain: CommandWord, again: CommandWord, mac: seq<bv8>, last: nat,
                                  session: nat)
    requires Recall(t, mac) == Known(last, session) && again.session == session != 0 && again.number == last
    requires plain.session == 0 && NewerSeq(last, plain.number)
    ensures Checked(t, plain, mac).1 && Checked(Checked(t, plain, mac).0, again, mac).1
  {
    TableIsAMap(t, plain, mac, mac);
    TableIsAMap(Checked(t, plain, mac).0, again, mac, mac);
    hide Checked, Recall, NewerSeq;
  }

  /** The hole at 0: every word is accepted after one with ring number 0, even that word again. */
  lemma ZeroAcceptsAnything(t: Tracking, cmd: CommandWord, mac: seq<bv8>, session: nat)
    requires Recall(t, mac) == Known(0, session)
    ensures Checked(t, cmd, mac).1
    ensures cmd.number == 0 ==> Checked(Checked(t, cmd, mac).0, cmd, mac).1
  {
    TableIsAMap(t, cmd, mac, mac);
    TableIsAMap(Checked(t, cmd, mac).0, cmd, mac, mac);
    hide Checked, Recall;
  }

  /**
   A sender that restarts with the next session is heard at once, whatever its number: the new
   session differs from the one before, and its word is adopted.
   */
  lemma NewSessionIsAdopted(t: Tracking, cmd: CommandWord, mac: seq<bv8>, last: nat, session: nat)
    requires Recall(t, mac) == Known(last, session) && cmd.session == NextSession(session)
    ensures Checked(t, cmd, mac).1 && Recall(Checked(t, cmd, mac).0, mac) == Known(cmd.number, NextSession(session))
  {
    SessionsDiffer(session);
    TableIsAMap(t, cmd, mac, mac);
    hide Checked, Recall, NextSession;
  }
}
