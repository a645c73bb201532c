/**
 * The props panel's state machine: the debounced table of pending writes, the guards of a
 * write, and the session counter that makes replies to an earlier selection harmless. The
 * bridge to the page is asynchronous: each call the panel makes is recorded in a request
 * log, and each reply is an event method carrying the session the call was made in.
 */
module PropsPanel {
  import opened Text
  import opened Wrappers
  import opened Dom
  import opened Numbers
  import opened ClassLists
  import opened Props

  // ---------------------------------------------------------------------------------------
  // The pending-write table
  // ---------------------------------------------------------------------------------------

  /** An entry of `pendingWrites`: the key and the value its debounce timer will write. */
  datatype PendingWrite = PendingWrite(key: string, value: Prim)

  /** The table never holds two entries for one key: no entry's key comes again after it. */
  predicate DistinctKeys(ws: seq<PendingWrite>) {
    ws == [] || ((forall w :: w in ws[1..] ==> w.key != ws[0].key) && DistinctKeys(ws[1..]))
  }

  /** `DistinctKeys` by pairs of positions. */
  lemma {:induction false} DistinctKeysPairs(ws: seq<PendingWrite>)
    requires DistinctKeys(ws)
    ensures forall i, j :: 0 <= i < j < |ws| ==> ws[i].key != ws[j].key
  {
    if ws != [] {
      DistinctKeysPairs(ws[1..]);
      forall i, j | 0 <= i < j < |ws| ensures ws[i].key != ws[j].key {
        assert ws[j] == ws[1..][j - 1];
        if i > 0 {
          assert ws[i] == ws[1..][i - 1];
        }
      }
    }
  }

  /** `[...pendingWrites.keys()]`: the keys in the order they were scheduled. */
  function Keys(ws: seq<PendingWrite>): (r: seq<string>)
    ensures |r| == |ws| && forall i :: 0 <= i < |ws| ==> r[i] == ws[i].key
  {
    seq(|ws|, i requires 0 <= i < |ws| => ws[i].key)
  }

  /** `pendingWrites.get(key)`: the value of the first entry with the key. */
  function PendingValue(ws: seq<PendingWrite>, key: string): Option<Prim> {
    if ws == [] then None
    else if ws[0].key == key then Some(ws[0].value)
    else PendingValue(ws[1..], key)
  }

  /** `pendingWrites.delete(key)`: the table without the key's entries, the others in order. */
  function Without(ws: seq<PendingWrite>, key: string): seq<PendingWrite> {
    if ws == [] then []
    else (if ws[0].key == key then [] else [ws[0]]) + Without(ws[1..], key)
  }

  /** The table after `scheduleWrite(key, v)`: the key's old entry dropped, its new one last. */
  function Scheduled(ws: seq<PendingWrite>, key: string, v: Prim): seq<PendingWrite> {
    Without(ws, key) + [PendingWrite(key, v)]
  }

  lemma {:induction false} PendingValueFound(ws: seq<PendingWrite>, key: string)
    ensures PendingValue(ws, key).Some? <==> exists i :: 0 <= i < |ws| && ws[i].key == key
    ensures forall i :: 0 <= i < |ws| && ws[i].key == key ==> PendingValue(ws, key).Some?
  {
    if ws != [] {
      PendingValueFound(ws[1..], key);
      if ws[0].key != key {
        forall i | 0 <= i < |ws| && ws[i].key == key ensures 1 <= i && ws[1..][i - 1].key == key {
        }
      }
    }
  }

  /** Deleting a key leaves no entry for it and keeps the value of every other key. */
  lemma {:induction false} WithoutValue(ws: seq<PendingWrite>, key: string)
    ensures PendingValue(Without(ws, key), key).None?
    ensures forall k :: k != key ==> PendingValue(Without(ws, key), k) == PendingValue(ws, k)
  {
    if ws != [] {
      WithoutValue(ws[1..], key);
      if ws[0].key != key {
        assert Without(ws, key) == [ws[0]] + Without(ws[1..], key);
        assert (Without(ws, key))[1..] == Without(ws[1..], key);
      } else {
        assert Without(ws, key) == Without(ws[1..], key);
      }
    }
  }

  /** Deleting a key keeps exactly the entries for other keys. */
  lemma {:induction false} WithoutMembers(ws: seq<PendingWrite>, key: string)
    ensures forall w :: w in Without(ws, key) <==> w in ws && w.key != key
  {
    if ws != [] {
      WithoutMembers(ws[1..], key);
      assert ws == [ws[0]] + ws[1..];
    }
  }

  /** Deleting a key keeps the table free of duplicate keys. */
  /** Deleting a key twice is deleting it once. */
  lemma WithoutIdempotent(ws: seq<PendingWrite>, key: string)
    ensures Without(Without(ws, key), key) == Without(ws, key)
  {
    var rest := Without(ws, key);
    WithoutMembers(ws, key);
    assert forall i :: 0 <= i < |rest| ==> rest[i].key != key by {
      forall i | 0 <= i < |rest| ensures rest[i].key != key {
        assert rest[i] in rest;
      }
    }
    WithoutAbsent(rest, key);
  }

  lemma {:induction false} WithoutDistinct(ws: seq<PendingWrite>, key: string)
    requires DistinctKeys(ws)
    ensures DistinctKeys(Without(ws, key))
  {
    if ws != [] {
      WithoutDistinct(ws[1..], key);
      var rest := Without(ws[1..], key);
      if ws[0].key != key {
        WithoutMembers(ws[1..], key);
        assert Without(ws, key) == [ws[0]] + rest;
        assert ([ws[0]] + rest)[1..] == rest;
      } else {
        assert Without(ws, key) == rest;
      }
    }
  }

  /**
   * `scheduleWrite` leaves exactly one entry for the key, holding the latest value, and
   * leaves every other key's pending value as it was.
   */
  lemma ScheduledSound(ws: seq<PendingWrite>, key: string, v: Prim)
    ensures PendingValue(Scheduled(ws, key, v), key) == Some(v)
    ensures forall k :: k != key ==> PendingValue(Scheduled(ws, key, v), k) == PendingValue(ws, k)
    ensures DistinctKeys(ws) ==> DistinctKeys(Scheduled(ws, key, v))
  {
    WithoutValue(ws, key);
    WithoutMembers(ws, key);
    AppendedValue(Without(ws, key), PendingWrite(key, v));
    var rest := Without(ws, key);
    if DistinctKeys(ws) {
      WithoutDistinct(ws, key);
      DistinctAppend(rest, PendingWrite(key, v));
    }
  }

  /** The value of `k` once `w` is added last, `found` before. */
  function AfterAppend(found: Option<Prim>, k: string, w: PendingWrite): Option<Prim> {
    if found.Some? then found else if k == w.key then Some(w.value) else None
  }

  /** An entry whose key the table does not hold can be added last. */
  lemma {:induction false} DistinctAppend(ws: seq<PendingWrite>, w: PendingWrite)
    requires DistinctKeys(ws) && forall x :: x in ws ==> x.key != w.key
    ensures DistinctKeys(ws + [w])
  {
    if ws != [] {
      DistinctAppend(ws[1..], w);
      assert (ws + [w])[1..] == ws[1..] + [w];
    }
  }

  /** Looking a key up in a table with one more entry at its end. */
  lemma {:induction false} AppendedValue(ws: seq<PendingWrite>, w: PendingWrite)
    ensures forall k :: PendingValue(ws + [w], k) == AfterAppend(PendingValue(ws, k), k, w)
  {
    if ws != [] {
      AppendedValue(ws[1..], w);
      assert (ws + [w])[1..] == ws[1..] + [w];
    }
  }

  /** In a table without duplicate keys, deleting the first entry's key drops just that entry. */
  lemma {:induction false} WithoutHead(ws: seq<PendingWrite>)
    requires ws != [] && DistinctKeys(ws)
    ensures PendingValue(ws, ws[0].key) == Some(ws[0].value)
    ensures Without(ws, ws[0].key) == ws[1..]
  {
    WithoutAbsent(ws[1..], ws[0].key);
  }

  /** Deleting a key the table does not hold changes nothing. */
  lemma {:induction false} WithoutAbsent(ws: seq<PendingWrite>, key: string)
    requires forall i :: 0 <= i < |ws| ==> ws[i].key != key
    ensures Without(ws, key) == ws
  {
    if ws != [] {
      WithoutAbsent(ws[1..], key);
    }
  }

  // ---------------------------------------------------------------------------------------
  // Calls to the bridge
  // ---------------------------------------------------------------------------------------

  /** A call the panel makes to the page bridge, with the session it was made in. */
  datatype Request =
    | Probe(session: nat, target: Elem)
    | Read(session: nat, target: Elem)
    | Write(session: nat, target: Elem, key: string, value: Prim)
    | Reset(session: nat, target: Elem)
    | EarlyInjection

  /** What a bridge call comes back with: a result, or the message of the error it threw. */
  datatype Reply = Answer(ok: bool, data: Option<Data>, error: Option<string>) | Threw(message: string)

  /** No request was made in a session later than `session`. */
  predicate SessionsUpTo(requests: seq<Request>, session: nat) {
    forall i :: 0 <= i < |requests| && !requests[i].EarlyInjection? ==> requests[i].session <= session
  }

  const BlockedKeyError := "Blocked prop key (security)"
  const NotWritableError := "Props editing is not available for this element."

  /** What the synchronous part of `commitWrite` does. */
  datatype Outcome = Ignored | Refused(error: string) | Sent(request: Request)

  /**
   * `commitWrite(key, v)` up to its first `await`, where `live` is the target when the panel
   * is not disposed and the target is attached, and `data` is the last response.
   */
  function CommitOutcome(live: Option<Elem>, data: Option<Data>, session: nat, key: string, v: Prim): Outcome {
    if live.None? then Ignored
    else if IsDangerousPropKey(key) then Refused(BlockedKeyError)
    else if !GetCanWrite(data) then Refused(NotWritableError)
    else Sent(Write(session, live.value, key, v))
  }

  /**
   * A write is sent only for an attached target, a key off the denylist and data that allows
   * writing; a denied key and data that does not allow writing are each reported as an error.
   */
  lemma CommitOutcomeGuards(live: Option<Elem>, data: Option<Data>, session: nat, key: string, v: Prim)
    ensures var o := CommitOutcome(live, data, session, key, v);
      && (o.Sent? <==> live.Some? && !IsDangerousPropKey(key) && GetCanWrite(data))
      && (o.Sent? ==> o.request == Write(session, live.value, key, v))
      && (live.Some? && IsDangerousPropKey(key) ==> o == Refused(BlockedKeyError))
      && (live.Some? && !IsDangerousPropKey(key) && !GetCanWrite(data) ==> o == Refused(NotWritableError))
      && (live.None? ==> o == Ignored)
  {
  }

  /** The requests an outcome adds to the log. */
  function SentBy(o: Outcome): seq<Request> {
    if o.Sent? then [o.request] else []
  }

  /** The error after an outcome, `err` before it. */
  function ErrorAfter(o: Outcome, err: Option<string>): Option<string> {
    if o.Refused? then Some(o.error) else err
  }

  /** The requests committing each entry of `ws` in turn adds to the log. */
  function Sends(live: Option<Elem>, data: Option<Data>, session: nat, ws: seq<PendingWrite>): seq<Request> {
    if ws == [] then []
    else SentBy(CommitOutcome(live, data, session, ws[0].key, ws[0].value)) + Sends(live, data, session, ws[1..])
  }

  /** The error after committing each entry of `ws` in turn, `err` before the first. */
  function Refusal(live: Option<Elem>, data: Option<Data>, session: nat, ws: seq<PendingWrite>, err: Option<string>): Option<string> {
    if ws == [] then err
    else Refusal(live, data, session, ws[1..], ErrorAfter(CommitOutcome(live, data, session, ws[0].key, ws[0].value), err))
  }

  lemma AppendAssoc(a: seq<Request>, b: seq<Request>, c: seq<Request>)
    ensures a + (b + c) == (a + b) + c
  {
  }

  /** Flushing the table sends only writes for the target and in the session of the moment. */
  lemma {:induction false} SendsOnlyWrites(live: Option<Elem>, data: Option<Data>, session: nat, ws: seq<PendingWrite>)
    ensures var rs := Sends(live, data, session, ws);
      && |rs| <= |ws|
      && forall i :: 0 <= i < |rs| ==>
           rs[i].Write? && rs[i].session == session && live == Some(rs[i].target) && !IsDangerousPropKey(rs[i].key)
  {
    if ws != [] {
      SendsOnlyWrites(live, data, session, ws[1..]);
      CommitOutcomeGuards(live, data, session, ws[0].key, ws[0].value);
    }
  }

  /**
   * When writing is allowed and no key is denied, flushing the table sends exactly one
   * write per entry, in the table's order, each with that entry's key and value.
   */
  lemma {:induction false} SendsEach(live: Option<Elem>, data: Option<Data>, session: nat, ws: seq<PendingWrite>)
    requires live.Some? && GetCanWrite(data)
    requires forall i :: 0 <= i < |ws| ==> !IsDangerousPropKey(ws[i].key)
    ensures var rs := Sends(live, data, session, ws);
      && |rs| == |ws|
      && forall i :: 0 <= i < |ws| ==> rs[i] == Write(session, live.value, ws[i].key, ws[i].value)
  {
    if ws != [] {
      var rest := ws[1..];
      assert forall i :: 0 <= i < |rest| ==> !IsDangerousPropKey(rest[i].key) by {
        forall i | 0 <= i < |rest| ensures !IsDangerousPropKey(rest[i].key) {
          assert rest[i] == ws[i + 1];
        }
      }
      SendsEach(live, data, session, rest);
      CommitOutcomeGuards(live, data, session, ws[0].key, ws[0].value);
      var rs := Sends(live, data, session, ws);
      assert rs == [Write(session, live.value, ws[0].key, ws[0].value)] + Sends(live, data, session, rest);
    }
  }

  // ---------------------------------------------------------------------------------------
  // What the inputs show
  // ---------------------------------------------------------------------------------------

  /** `findPropEntry`: the first entry of the last response with the key. */
  function FindEntry(data: Option<Data>, key: string): (r: Option<Entry>)
    ensures r.Some? ==> r.value.key == key
    ensures r.None? && data.Some? && data.value.props.Some? ==>
      forall e :: e in data.value.props.value.entries ==> e.key != key
  {
    if data.None? || data.value.props.None? then None
    else
      var es := data.value.props.value.entries;
      var i := FirstEntry(es, key);
      if i == |es| then None else Some(es[i])
  }

  /** What `setInputFromEntry` puts into an input, besides clearing its invalid mark. */
  datatype InputState = InputText(text: string) | InputChecked(checked: bool) | InputUntouched

  /** `setInputFromEntry`: strings show as they are, finite numbers as digits, then a number's special name. */
  function InputFromEntry(e: Entry): InputState {
    match e.value
    case SString(s, _) => InputText(s)
    case SNumber(special, num) =>
      if num.Some? then InputText(FormatDec(num.value))
      else if Truthy(special) then InputText(special.value)
      else InputText("")
    case SBoolean(b) => InputChecked(b)
    case _ => InputUntouched
  }

  /**
   * What `setInputFromEntry` restores: a string as it is, a boolean as the checkbox state, a
   * finite number as text that reads back as that very number, and a number without a finite
   * value as its special name, or nothing.
   */
  lemma InputFromEntryRestores(e: Entry)
    ensures e.value.SString? ==> InputFromEntry(e) == InputText(e.value.str)
    ensures e.value.SBoolean? ==> InputFromEntry(e) == InputChecked(e.value.flag)
    ensures e.value.SNumber? && e.value.num.Some? ==> (InputFromEntry(e).InputText?
      && ParseNumberInput(InputFromEntry(e).text) == Some(Normalize(e.value.num.value))
      && Value(ParseNumberInput(InputFromEntry(e).text).value) == Value(e.value.num.value))
    ensures e.value.SNumber? && e.value.num.None? ==>
      InputFromEntry(e) == InputText(if Truthy(e.value.special) then e.value.special.value else "")
    ensures !(e.value.SString? || e.value.SBoolean? || e.value.SNumber?) ==> InputFromEntry(e) == InputUntouched
  {
    if e.value.SNumber? && e.value.num.Some? {
      FormatDecReadsBack(e.value.num.value);
    }
  }

  /** The hook states a page reload with early injection can fix. */
  predicate OffersEarlyInjection(data: Option<Data>) {
    && data.Some?
    && data.value.needsRefresh == Some(true)
    && (data.value.hookStatus == Some("HOOK_MISSING") || data.value.hookStatus == Some("HOOK_PRESENT_NO_RENDERERS"))
  }

  /** `result.error ?? fallback`. */
  function ErrorOr(error: Option<string>, fallback: string): string {
    if error.Some? then error.value else fallback
  }

  /** The data after a reply: an answer's data merged in, the last data kept when the call threw. */
  function MergeReply(data: Option<Data>, reply: Reply): Option<Data> {
    if reply.Answer? then MergeResponseData(data, reply.data) else data
  }

  /** The error after a reply: a thrown message, a failed answer's error or `fallback`, else `err`. */
  function ReplyError(reply: Reply, fallback: string, err: Option<string>): (r: Option<string>)
    ensures reply.Threw? ==> r == Some(reply.message)
    ensures reply.Answer? && !reply.ok ==> r.Some?
    ensures reply.Answer? && reply.ok ==> r == err
  {
    if reply.Threw? then Some(reply.message)
    else if !reply.ok then Some(ErrorOr(reply.error, fallback))
    else err
  }

  /** The fields `probeAndRead` sets before its first `await`, and the calls it makes. */
  datatype Fetch = Fetch(needsFetch: bool, data: Option<Data>, error: Option<string>, loading: bool, sent: seq<Request>)

  /**
   * `probeAndRead` up to the probe: a hidden panel owes a fetch; a shown one without a live
   * target clears the response and the error and stops loading; otherwise it clears the
   * error, starts loading and asks for a probe of the target in the current session.
   */
  function StartFetch(visible: bool, live: Option<Elem>, session: nat, needsFetch: bool, data: Option<Data>,
                      error: Option<string>, loading: bool): Fetch
  {
    if !visible then Fetch(true, data, error, loading, [])
    else if live.None? then Fetch(false, None, None, false, [])
    else Fetch(needsFetch, data, None, true, [Probe(session, live.value)])
  }

  /**
   * A fetch sends at most one call, a probe of the live target in the current session, and
   * only when the panel is shown; a shown panel that sends none has nothing to show.
   */
  lemma StartFetchSound(visible: bool, live: Option<Elem>, session: nat, needsFetch: bool, data: Option<Data>,
                        error: Option<string>, loading: bool)
    ensures var f := StartFetch(visible, live, session, needsFetch, data, error, loading);
      && (f.sent != [] <==> visible && live.Some?)
      && (f.sent != [] ==> f.sent == [Probe(session, live.value)] && f.loading && f.error.None?)
      && (!visible ==> f.needsFetch && f.data == data && f.error == error && f.loading == loading)
      && (visible && live.None? ==> f == Fetch(false, None, None, false, []))
  {
  }

  // ---------------------------------------------------------------------------------------
  // The panel
  // ---------------------------------------------------------------------------------------

  /**
   * The panel's state: the selected element, whether the panel is shown and owes a fetch for
   * when it is, whether a fetch is under way, the session counter, the last response and
   * error, the pending writes in the order they were scheduled, and the calls made so far.
   */
  class Panel {
    const doc: Document
    var target: Option<Elem>
    var visible: bool
    var needsFetchOnVisible: bool
    var loading: bool
    var sessionId: nat
    var lastData: Option<Data>
    var lastError: Option<string>
    var pending: seq<PendingWrite>
    var requests: seq<Request>
    var disposed: bool

    /**
     * One pending entry per key, no call made in a session still to come, and a disposed
     * panel holds nothing.
     */
    ghost predicate Valid()
      reads this`target, this`needsFetchOnVisible, this`loading, this`sessionId, this`lastData,
        this`lastError, this`pending, this`requests, this`disposed
    {
      && DistinctKeys(pending)
      && SessionsUpTo(requests, sessionId)
      && (disposed ==>
            target.None? && lastData.None? && lastError.None? && !loading && !needsFetchOnVisible && pending == [])
    }

    /** The target writes and fetches go to: the selected element, while attached and not disposed. */
    function Live(): (r: Option<Elem>)
      reads this`disposed, this`target, doc
      ensures r.Some? <==> !disposed && doc.Attached(target)
      ensures r.Some? ==> target == r
    {
      if !disposed && doc.Attached(target) then target else None
    }

    /** `createPropsPanel`: hidden, without a target, in session 0. */
    constructor (doc: Document)
      ensures Valid()
      ensures this.doc == doc && target.None? && !visible && !needsFetchOnVisible && !loading
      ensures sessionId == 0 && lastData.None? && lastError.None? && pending == [] && requests == []
      ensures !disposed
    {
      this.doc := doc;
      target, visible, needsFetchOnVisible, loading := None, false, false, false;
      sessionId, lastData, lastError := 0, None, None;
      pending, requests, disposed := [], [], false;
    }

    /** `cancelPendingWrite(key)`: the key's timer is cleared and its entry deleted. */
    method CancelPendingWrite(key: string)
      requires Valid()
      modifies this`pending
      ensures Valid()
      ensures pending == Without(old(pending), key)
    {
      WithoutDistinct(pending, key);
      pending := Without(pending, key);
    }

    /** `clearAllPendingWrites`: every timer is cleared and the table emptied. */
    method ClearAllPendingWrites()
      requires Valid()
      modifies this`pending
      ensures Valid()
      ensures pending == []
    {
      pending := [];
    }

    /**
     * `scheduleWrite(key, v)`: the key's pending write, if any, is cancelled and a new one is
     * added last. Only the input handler schedules writes, and its listener is gone once the
     * panel is disposed.
     */
    method ScheduleWrite(key: string, v: Prim)
      requires Valid() && !disposed
      modifies this`pending
      ensures Valid()
      ensures pending == Scheduled(old(pending), key, v)
    {
      CancelPendingWrite(key);
      ScheduledSound(old(pending), key, v);
      pending := pending + [PendingWrite(key, v)];
    }

    /**
     * `commitWrite(key, v)` up to the bridge call: nothing without an attached target, an
     * error for a denied key or for data that does not allow writing, and otherwise a write
     * request in the current session.
     */
    method CommitWrite(key: string, v: Prim)
      requires Valid()
      modifies this`lastError, this`requests
      ensures Valid()
      ensures var o := CommitOutcome(Live(), lastData, sessionId, key, v);
        requests == old(requests) + SentBy(o) && lastError == ErrorAfter(o, old(lastError))
    {
      if disposed {
        return;
      }
      if !doc.Attached(target) {
        return;
      }
      if IsDangerousPropKey(key) {
        lastError := Some(BlockedKeyError);
        return;
      }
      if !GetCanWrite(lastData) {
        lastError := Some(NotWritableError);
        return;
      }
      requests := requests + [Write(sessionId, target.value, key, v)];
    }

    /** `flushPendingWrite(key)`: the key's pending write, if any, is deleted and committed now. */
    method FlushPendingWrite(key: string)
      requires Valid()
      modifies this`pending, this`lastError, this`requests
      ensures Valid()
      ensures pending == Without(old(pending), key)
      ensures var v := PendingValue(old(pending), key);
        var o := if v.Some? then CommitOutcome(Live(), lastData, sessionId, key, v.value) else Ignored;
        requests == old(requests) + SentBy(o) && lastError == ErrorAfter(o, old(lastError))
    {
      var existing := PendingValue(pending, key);
      if existing.None? {
        PendingValueFound(pending, key);
        WithoutAbsent(pending, key);
        return;
      }
      CancelPendingWrite(key);
      CommitWrite(key, existing.value);
    }

    /**
     * The debounce timer of `key` fires: its entry is deleted and its value committed. A
     * timer is live exactly while its key has an entry, so the key is pending.
     */
    method FireTimer(key: string)
      requires Valid() && PendingValue(pending, key).Some?
      modifies this`pending, this`lastError, this`requests
      ensures Valid()
      ensures pending == Without(old(pending), key)
      ensures var o := CommitOutcome(Live(), lastData, sessionId, key, PendingValue(old(pending), key).value);
        requests == old(requests) + SentBy(o) && lastError == ErrorAfter(o, old(lastError))
    {
      var v := PendingValue(pending, key).value;
      CancelPendingWrite(key);
      CommitWrite(key, v);
    }

    /**
     * `flushAllPendingWrites`: the table is emptied and every entry it held is committed once,
     * in the order the entries were scheduled.
     */
    method FlushAllPendingWrites()
      requires Valid()
      modifies this`pending, this`lastError, this`requests
      ensures Valid()
      ensures pending == []
      ensures requests == old(requests) + Sends(Live(), lastData, sessionId, old(pending))
      ensures lastError == Refusal(Live(), lastData, sessionId, old(pending), old(lastError))
    {
      if |pending| == 0 {
        return;
      }
      var keys := Keys(pending);
      ghost var ws := pending;
      var i := 0;
      while i < |keys|
        invariant 0 <= i <= |keys| == |ws|
        invariant Valid() && pending == ws[i..]
        invariant old(requests) + Sends(Live(), lastData, sessionId, ws) == requests + Sends(Live(), lastData, sessionId, pending)
        invariant Refusal(Live(), lastData, sessionId, ws, old(lastError)) == Refusal(Live(), lastData, sessionId, pending, lastError)
      {
        ghost var before := requests;
        WithoutHead(pending);
        // The key is always found: committing a write does not touch the table.
        FlushPendingWrite(keys[i]);
        AppendAssoc(before, SentBy(CommitOutcome(Live(), lastData, sessionId, ws[i].key, ws[i].value)), Sends(Live(), lastData, sessionId, pending));
        i := i + 1;
      }
    }

    /** Whether a reply made in `session` still counts: the panel is not disposed and no new target was set since. */
    predicate Current(session: nat)
      reads this`disposed, this`sessionId
    {
      !disposed && session == sessionId
    }

    /** `probeAndRead` up to the probe call. */
    method ProbeAndRead()
      requires Valid()
      modifies this`needsFetchOnVisible, this`lastData, this`lastError, this`loading, this`requests
      ensures Valid()
      ensures old(disposed) ==> unchanged(this)
      ensures !disposed ==>
        var f := StartFetch(visible, Live(), sessionId, old(needsFetchOnVisible), old(lastData), old(lastError), old(loading));
        && needsFetchOnVisible == f.needsFetch && lastData == f.data && lastError == f.error && loading == f.loading
        && requests == old(requests) + f.sent
    {
      if disposed {
        return;
      }
      if !visible {
        needsFetchOnVisible := true;
        return;
      }
      if !doc.Attached(target) {
        lastData, lastError, loading, needsFetchOnVisible := None, None, false, false;
        return;
      }
      loading, lastError := true, None;
      requests := requests + [Probe(sessionId, target.value)];
    }

    /**
     * The probe's reply, `elem` being the target it was asked for. A reply from an earlier
     * session, or after disposal, changes nothing. Otherwise its data is merged in and a
     * failure reported; when the probed data says props can be read the read is asked for and
     * loading goes on, and otherwise loading ends.
     */
    method ProbeDone(session: nat, elem: Elem, reply: Reply)
      requires Valid()
      modifies this`lastData, this`lastError, this`loading, this`needsFetchOnVisible, this`requests
      ensures Valid()
      ensures !old(Current(session)) ==> unchanged(this)
      ensures old(Current(session)) ==>
        var readNext := reply.Answer? && GetCanRead(reply.data);
        && lastData == MergeReply(old(lastData), reply)
        && lastError == ReplyError(reply, "Props probe failed", old(lastError))
        && requests == old(requests) + (if readNext then [Read(session, elem)] else [])
        && (readNext ==> loading == old(loading) && needsFetchOnVisible == old(needsFetchOnVisible))
        && (!readNext ==> !loading && !needsFetchOnVisible)
    {
      if !Current(session) {
        return;
      }
      lastData := MergeReply(lastData, reply);
      lastError := ReplyError(reply, "Props probe failed", lastError);
      if reply.Answer? && GetCanRead(reply.data) {
        requests := requests + [Read(session, elem)];
        return;
      }
      loading, needsFetchOnVisible := false, false;
    }

    /** The read's reply: stale replies change nothing; otherwise data merged, failure reported, loading ended. */
    method ReadDone(session: nat, reply: Reply)
      requires Valid()
      modifies this`lastData, this`lastError, this`loading, this`needsFetchOnVisible
      ensures Valid()
      ensures !old(Current(session)) ==> unchanged(this)
      ensures old(Current(session)) ==>
        && lastData == MergeReply(old(lastData), reply)
        && lastError == ReplyError(reply, "Props read failed", old(lastError))
        && !loading && !needsFetchOnVisible
    {
      if !Current(session) {
        return;
      }
      lastData := MergeReply(lastData, reply);
      lastError := ReplyError(reply, "Props read failed", lastError);
      loading, needsFetchOnVisible := false, false;
    }

    /**
     * The reply to the write of `v` to `key`. Stale replies change nothing. Otherwise the data
     * is merged in; a failure is reported, and a success clears the error and puts `v` into
     * the key's entry of the data shown.
     */
    method WriteDone(session: nat, key: string, v: Prim, reply: Reply)
      requires Valid()
      modifies this`lastData, this`lastError
      ensures Valid()
      ensures !old(Current(session)) ==> unchanged(this)
      ensures old(Current(session)) ==>
        var merged := MergeReply(old(lastData), reply);
        && (reply.Answer? && reply.ok ==> lastError.None? && lastData == WithPrimitive(merged, key, v))
        && (!(reply.Answer? && reply.ok) ==> lastError == ReplyError(reply, "Props write failed", old(lastError)) && lastData == merged)
    {
      if !Current(session) {
        return;
      }
      lastData := MergeReply(lastData, reply);
      if reply.Threw? || !reply.ok {
        lastError := ReplyError(reply, "Props write failed", lastError);
        return;
      }
      lastError := None;
      UpdateLocalPrimitiveSnapshot(key, v);
    }

    /** `updateLocalPrimitiveSnapshot(lastData, key, v)`: the first entry with the key takes `v`. */
    method UpdateLocalPrimitiveSnapshot(key: string, v: Prim)
      modifies this`lastData
      ensures lastData == WithPrimitive(old(lastData), key, v)
    {
      if lastData.None? || lastData.value.props.None? {
        return;
      }
      var es := lastData.value.props.value.entries;
      var i := 0;
      while i < |es| && es[i].key != key
        invariant 0 <= i <= |es|
        invariant forall j :: 0 <= j < i ==> es[j].key != key
      {
        i := i + 1;
      }
      if i == |es| {
        return;
      }
      var entry := es[i].(value := SerializedOf(v), editable := true);
      lastData := Some(lastData.value.(props := Some(lastData.value.props.value.(entries := es[i := entry]))));
    }

    /**
     * `resetOverrides` up to the reset call: nothing without a live target; otherwise every
     * pending write is dropped, the error cleared, loading started and the reset asked for.
     */
    method ResetOverrides()
      requires Valid()
      modifies this`pending, this`loading, this`lastError, this`requests
      ensures Valid()
      ensures Live().None? ==> unchanged(this)
      ensures Live().Some? ==>
        && pending == [] && loading && lastError.None?
        && requests == old(requests) + [Reset(sessionId, target.value)]
    {
      if disposed {
        return;
      }
      if !doc.Attached(target) {
        return;
      }
      ClearAllPendingWrites();
      loading, lastError := true, None;
      requests := requests + [Reset(sessionId, target.value)];
    }

    /**
     * The reset's reply. Stale replies change nothing. Otherwise the data is merged in, a
     * failure reported, loading ended, and the props fetched again.
     */
    method ResetDone(session: nat, reply: Reply)
      requires Valid()
      modifies this`lastData, this`lastError, this`loading, this`needsFetchOnVisible, this`requests
      ensures Valid()
      ensures !old(Current(session)) ==> unchanged(this)
      ensures old(Current(session)) ==>
        var f := StartFetch(visible, Live(), sessionId, old(needsFetchOnVisible), MergeReply(old(lastData), reply),
          ReplyError(reply, "Props reset failed", old(lastError)), false);
        && needsFetchOnVisible == f.needsFetch && lastData == f.data && lastError == f.error && loading == f.loading
        && requests == old(requests) + f.sent
    {
      if !Current(session) {
        return;
      }
      lastData := MergeReply(lastData, reply);
      lastError := ReplyError(reply, "Props reset failed", lastError);
      loading := false;
      ProbeAndRead();
    }

    /**
     * `setTarget(e)`: the pending writes are flushed to the previous target in the previous
     * session; then the panel follows `e`.
     */
    method SetTarget(e: Option<Elem>)
      requires Valid()
      modifies this`pending, this`lastError, this`requests, this`sessionId, this`target, this`lastData,
        this`loading, this`needsFetchOnVisible
      ensures Valid()
      ensures old(disposed) ==> unchanged(this)
      ensures !disposed ==>
        && pending == [] && sessionId == old(sessionId) + 1
        && target == (if doc.Attached(e) then e else None)
        && lastData.None? && lastError.None?
        && loading == (visible && target.Some?) && needsFetchOnVisible == !visible
        && requests == old(requests) + Sends(old(Live()), old(lastData), old(sessionId), old(pending))
             + (if visible && target.Some? then [Probe(sessionId, target.value)] else [])
    {
      if disposed {
        return;
      }
      FlushAllPendingWrites();
      ghost var flushed := requests;
      Follow(e);
      assert requests == flushed + (if visible && target.Some? then [Probe(sessionId, target.value)] else []);
    }

    /**
     * The rest of `setTarget(e)`: the session advances, the panel takes `e` when it is
     * attached, clears its response, and fetches or, while hidden, owes a fetch.
     */
    method Follow(e: Option<Elem>)
      requires Valid() && !disposed && pending == []
      modifies this`lastError, this`requests, this`sessionId, this`target, this`lastData, this`loading,
        this`needsFetchOnVisible
      ensures Valid()
      ensures sessionId == old(sessionId) + 1
      ensures target == (if doc.Attached(e) then e else None)
      ensures lastData.None? && lastError.None?
      ensures loading == (visible && target.Some?) && needsFetchOnVisible == !visible
      ensures requests == old(requests) + (if visible && target.Some? then [Probe(sessionId, target.value)] else [])
    {
      sessionId := sessionId + 1;
      target := if doc.Attached(e) then e else None;
      lastData, lastError, loading, needsFetchOnVisible := None, None, false, false;
      if visible {
        ProbeAndRead();
      } else {
        needsFetchOnVisible := true;
      }
    }

    /** `refresh`: the pending writes are dropped and the props fetched again. */
    method Refresh()
      requires Valid()
      modifies this`pending, this`needsFetchOnVisible, this`lastData, this`lastError, this`loading, this`requests
      ensures Valid()
      ensures old(disposed) ==> unchanged(this)
      ensures !disposed ==>
        var f := StartFetch(visible, Live(), sessionId, old(needsFetchOnVisible), old(lastData), old(lastError), old(loading));
        && pending == []
        && needsFetchOnVisible == f.needsFetch && lastData == f.data && lastError == f.error && loading == f.loading
        && requests == old(requests) + f.sent
    {
      if disposed {
        return;
      }
      ClearAllPendingWrites();
      ProbeAndRead();
    }

    /** `setVisible(v)`: showing the panel runs the fetch it owes. */
    method SetVisible(v: bool)
      requires Valid()
      modifies this`visible, this`needsFetchOnVisible, this`lastData, this`lastError, this`loading, this`requests
      ensures Valid()
      ensures old(disposed) ==> unchanged(this)
      ensures !disposed ==> visible == v
      ensures !disposed && v && old(needsFetchOnVisible) ==>
        var f := StartFetch(true, Live(), sessionId, true, old(lastData), old(lastError), old(loading));
        && needsFetchOnVisible == f.needsFetch && lastData == f.data && lastError == f.error && loading == f.loading
        && requests == old(requests) + f.sent
      ensures !disposed && !(v && old(needsFetchOnVisible)) ==>
        && needsFetchOnVisible == old(needsFetchOnVisible) && lastData == old(lastData)
        && lastError == old(lastError) && loading == old(loading) && requests == old(requests)
    {
      if disposed {
        return;
      }
      visible := v;
      if v && needsFetchOnVisible {
        ProbeAndRead();
      }
    }

    /** `dispose`: the target, the response and every pending write are dropped for good. */
    method Dispose()
      requires Valid()
      modifies this`target, this`lastData, this`lastError, this`loading, this`needsFetchOnVisible, this`pending,
        this`disposed
      ensures Valid()
      ensures disposed && target.None? && lastData.None? && lastError.None? && !loading && !needsFetchOnVisible
      ensures pending == []
    {
      target, lastData, lastError := None, None, None;
      loading, needsFetchOnVisible := false, false;
      ClearAllPendingWrites();
      disposed := true;
    }

    /**
     * The Refresh button: the pending writes are dropped; when the hook state calls for early
     * injection it is asked for, and otherwise the props are fetched again.
     */
    method RefreshClick()
      requires Valid()
      modifies this`pending, this`needsFetchOnVisible, this`lastData, this`lastError, this`loading, this`requests
      ensures Valid()
      ensures old(disposed) ==> unchanged(this)
      ensures !disposed && OffersEarlyInjection(old(lastData)) ==>
        && pending == [] && requests == old(requests) + [EarlyInjection]
        && needsFetchOnVisible == old(needsFetchOnVisible) && lastData == old(lastData)
        && lastError == old(lastError) && loading == old(loading)
      ensures !disposed && !OffersEarlyInjection(old(lastData)) ==>
        var f := StartFetch(visible, Live(), sessionId, old(needsFetchOnVisible), old(lastData), old(lastError), old(loading));
        && pending == []
        && needsFetchOnVisible == f.needsFetch && lastData == f.data && lastError == f.error && loading == f.loading
        && requests == old(requests) + f.sent
    {
      if disposed {
        return;
      }
      ClearAllPendingWrites();
      if OffersEarlyInjection(lastData) {
        requests := requests + [EarlyInjection];
        return;
      }
      ProbeAndRead();
    }

    /**
     * The list's `input` listener, for a text or number input with the given `data-prop-key`,
     * `data-prop-kind` and text. It ignores disabled inputs, checkboxes, inputs without key or
     * kind, denied keys and IME composition; a string is scheduled as typed, and a number that
     * parses is scheduled while a blank or malformed one cancels the key's pending write.
     * `invalid` is what becomes of the input's invalid mark: set, cleared or left alone.
     */
    method OnInput(key: string, kind: string, text: string, disabled: bool, checkbox: bool, composing: bool)
      returns (invalid: Option<bool>)
      requires Valid()
      modifies this`pending
      ensures Valid()
      ensures var active := !disposed && !disabled && !checkbox && key != "" && kind != ""
          && !IsDangerousPropKey(key) && !composing;
        && (!active || (kind != "string" && kind != "number") ==> pending == old(pending) && invalid.None?)
        && (active && kind == "string" ==> pending == Scheduled(old(pending), key, PStr(text)) && invalid.None?)
        && (active && kind == "number" && ParseNumberInput(text).Some? ==>
              pending == Scheduled(old(pending), key, PNum(ParseNumberInput(text).value)) && invalid == Some(false))
        && (active && kind == "number" && ParseNumberInput(text).None? ==>
              pending == Without(old(pending), key) && invalid == Some(Trim(text) != ""))
    {
      invalid := None;
      if disposed || disabled || checkbox || key == "" || kind == "" || IsDangerousPropKey(key) || composing {
        return;
      }
      if kind == "string" {
        ScheduleWrite(key, PStr(text));
        return;
      }
      if kind == "number" {
        var parsed := ParseNumberInput(text);
        if Trim(text) == "" {
          CancelPendingWrite(key);
          invalid := Some(false);
          return;
        }
        if parsed.None? {
          CancelPendingWrite(key);
          invalid := Some(true);
          return;
        }
        invalid := Some(false);
        ScheduleWrite(key, PNum(parsed.value));
      }
    }

    /**
     * The list's `change` listener for an enum select: unless the select is disabled, lacks a
     * key, is not an enum or has a denied key, the chosen value is written at once.
     */
    method OnSelectChange(key: string, kind: string, value: string, disabled: bool)
      requires Valid()
      modifies this`lastError, this`requests
      ensures Valid()
      ensures var active := !disposed && !disabled && key != "" && kind == "enum" && !IsDangerousPropKey(key);
        var o := if active then CommitOutcome(Live(), lastData, sessionId, key, PStr(value)) else Ignored;
        requests == old(requests) + SentBy(o) && lastError == ErrorAfter(o, old(lastError))
    {
      if disposed || disabled || key == "" || kind != "enum" || IsDangerousPropKey(key) {
        return;
      }
      CommitWrite(key, PStr(value));
    }

    /**
     * The list's `change` listener for a checkbox: unless it is disabled, lacks a key, is not a
     * boolean or has a denied key, the new state is written at once.
     */
    method OnCheckboxChange(key: string, kind: string, checked: bool, disabled: bool, checkbox: bool)
      requires Valid()
      modifies this`lastError, this`requests
      ensures Valid()
      ensures var active := !disposed && !disabled && checkbox && key != "" && kind == "boolean" && !IsDangerousPropKey(key);
        var o := if active then CommitOutcome(Live(), lastData, sessionId, key, PBool(checked)) else Ignored;
        requests == old(requests) + SentBy(o) && lastError == ErrorAfter(o, old(lastError))
    {
      if disposed || disabled || !checkbox || key == "" || kind != "boolean" || IsDangerousPropKey(key) {
        return;
      }
      CommitWrite(key, PBool(checked));
    }

    /**
     * Enter in an input with a key and a kind, outside IME composition: its pending write goes
     * out now, and the input is blurred. The blur's `focusout` runs at once, with the input's
     * `text`: a blank or malformed number is then cleared (`cleared`) and, when the last
     * response has an entry for the key, shown from it (`restore`); its own flush finds
     * nothing left to send.
     */
    method OnEnter(key: string, kind: string, text: string, disabled: bool, composing: bool)
      returns (restore: Option<InputState>, cleared: bool)
      requires Valid()
      modifies this`pending, this`lastError, this`requests
      ensures Valid()
      ensures disposed || disabled || key == "" || kind == "" || composing ==> unchanged(this) && restore.None? && !cleared
      ensures !(disposed || disabled || key == "" || kind == "" || composing) ==>
        && pending == Without(old(pending), key)
        && (cleared <==> kind == "number" && ParseNumberInput(text).None?)
        && restore == (if cleared && FindEntry(lastData, key).Some? then Some(InputFromEntry(FindEntry(lastData, key).value)) else None)
        && var v := PendingValue(old(pending), key);
           var o := if v.Some? then CommitOutcome(Live(), lastData, sessionId, key, v.value) else Ignored;
           requests == old(requests) + SentBy(o) && lastError == ErrorAfter(o, old(lastError))
    {
      restore, cleared := None, false;
      if disposed || disabled || key == "" || kind == "" || composing {
        return;
      }
      FlushPendingWrite(key);
      ghost var flushed := pending;
      WithoutValue(old(pending), key);
      WithoutIdempotent(old(pending), key);
      restore, cleared := OnFocusOut(key, kind, text, disabled);
      assert pending == Without(flushed, key);
    }

    /**
     * Escape in an input with a key and a kind: its pending write is dropped and, when the
     * last response has an entry for the key, the input shows that entry again (`restore`).
     */
    method OnEscape(key: string, kind: string, disabled: bool) returns (restore: Option<InputState>)
      requires Valid()
      modifies this`pending
      ensures Valid()
      ensures disposed || disabled || key == "" || kind == "" ==> pending == old(pending) && restore.None?
      ensures !(disposed || disabled || key == "" || kind == "") ==>
        && pending == Without(old(pending), key)
        && restore == (if FindEntry(lastData, key).Some? then Some(InputFromEntry(FindEntry(lastData, key).value)) else None)
    {
      restore := None;
      if disposed || disabled || key == "" || kind == "" {
        return;
      }
      CancelPendingWrite(key);
      var entry := FindEntry(lastData, key);
      if entry.None? {
        return;
      }
      restore := Some(InputFromEntry(entry.value));
    }

    /**
     * The list's `focusout` listener for an input with a key. A number input left blank or
     * malformed drops its pending write, loses its invalid mark and shows the last response's
     * entry again; every other input sends its pending write now.
     */
    method OnFocusOut(key: string, kind: string, text: string, disabled: bool) returns (restore: Option<InputState>, cleared: bool)
      requires Valid()
      modifies this`pending, this`lastError, this`requests
      ensures Valid()
      ensures disposed || disabled || key == "" ==> unchanged(this) && restore.None? && !cleared
      ensures !(disposed || disabled || key == "") && kind == "number" && ParseNumberInput(text).None? ==>
        && pending == Without(old(pending), key) && cleared && requests == old(requests) && lastError == old(lastError)
        && restore == (if FindEntry(lastData, key).Some? then Some(InputFromEntry(FindEntry(lastData, key).value)) else None)
      ensures !(disposed || disabled || key == "") && !(kind == "number" && ParseNumberInput(text).None?) ==>
        && pending == Without(old(pending), key) && restore.None? && !cleared
        && var v := PendingValue(old(pending), key);
           var o := if v.Some? then CommitOutcome(Live(), lastData, sessionId, key, v.value) else Ignored;
           requests == old(requests) + SentBy(o) && lastError == ErrorAfter(o, old(lastError))
    {
      restore, cleared := None, false;
      if disposed || disabled || key == "" {
        return;
      }
      if kind == "number" {
        var parsed := ParseNumberInput(text);
        if Trim(text) == "" || parsed.None? {
          CancelPendingWrite(key);
          cleared := true;
          var entry := FindEntry(lastData, key);
          if entry.Some? {
            restore := Some(InputFromEntry(entry.value));
          }
          return;
        }
      }
      FlushPendingWrite(key);
    }
  }

  /** No enum value offered is empty: each has a non-blank trim. */
  lemma ChoiceNotEmpty(raw: seq<Option<string>>, k: nat)
    requires k < |EnumChoices(raw)|
    ensures EnumChoices(raw)[k] != ""
  {
    assert Blank("");
  }

  /** One more non-empty value joins the distinct list unless already there. */
  lemma EnumStep(values: seq<string>, i: nat)
    requires i < |values| && values[i] != ""
    ensures var prev := NonEmptyDistinct(values[..i]);
      NonEmptyDistinct(values[..i + 1]) == if values[i] in prev then prev else prev + [values[i]]
  {
    assert values[..i + 1][..i] == values[..i];
  }

  /**
   * The options `renderList` puts into an enum select: the current value first, marked
   * current, when the non-blank enum values lack it, then each of those values once; the
   * current value is selected when there is one.
   */
  method EnumOptionList(current: string, raw: seq<Option<string>>) returns (options: seq<string>, selected: Option<string>)
    ensures options == EnumOptions(current, EnumChoices(raw))
    ensures selected == (if current != "" then Some(current) else None)
  {
    var values := EnumChoices(raw);
    var seen: set<string> := {};
    var head := [];
    if current != "" && current !in values {
      head := [current];
      seen := {current};
    }
    forall k | 0 <= k < |values| ensures values[k] != "" {
      ChoiceNotEmpty(raw, k);
    }
    options, seen := AppendUnseen(head, seen, values);
    if current != "" && current in seen {
      selected := Some(current);
    } else {
      selected := None;
    }
  }

  /**
   * The loop of `EnumOptionList`: each value not yet in `seen` joins the options, and
   * `seen` grows with it.
   */
  method AppendUnseen(head: seq<string>, seen0: set<string>, values: seq<string>) returns (options: seq<string>, seen: set<string>)
    requires forall k :: 0 <= k < |values| ==> values[k] != ""
    requires forall x :: x in seen0 <==> x in head
    requires forall x :: x in head ==> x !in values
    ensures options == head + NonEmptyDistinct(values)
    ensures forall x :: x in seen <==> x in options
  {
    options, seen := head, seen0;
    var i := 0;
    while i < |values|
      invariant 0 <= i <= |values|
      invariant options == head + NonEmptyDistinct(values[..i])
      invariant forall x :: x in seen <==> x in options
    {
      var v := values[i];
      EnumStep(values, i);
      if v !in seen {
        seen := seen + {v};
        options := options + [v];
      }
      i := i + 1;
    }
    assert values[..i] == values;
  }
}
