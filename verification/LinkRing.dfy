/** Circular doubly linked lists whose head is not known: head discovery from a record, and the dumps from the head. */
module LinkRing {
  import opened Memory

  /** A LIST_ENTRY. Its signature is what a record containing the entry would have as signature. */
  class ListEntry {
    var forwardLink: ListEntry
    var backLink: ListEntry
    const signature: dword

    /** An initialized list head: the ring of one entry. */
    constructor (signature: dword)
      ensures this.signature == signature && Ring([this])
    {
      this.signature := signature;
      forwardLink, backLink := this, this;
    }
  }

  /** The entries, in forward order, of a well-linked circular list. */
  ghost predicate Ring(ring: seq<ListEntry>)
    reads ring
  {
    && ring != []
    && Distinct(ring)
    && (forall i :: 0 <= i < |ring| - 1 ==> ring[i].forwardLink == ring[i + 1] && ring[i + 1].backLink == ring[i])
    && ring[|ring| - 1].forwardLink == ring[0]
    && ring[0].backLink == ring[|ring| - 1]
  }

  /** The same ring, seen from its k-th entry. */
  function Rotate<T>(s: seq<T>, k: nat): (r: seq<T>)
    requires k < |s|
    ensures |r| == |s| && r[0] == s[k] && r[1..] == s[k + 1..] + s[..k]
  {
    s[k..] + s[..k]
  }

  function Reverse<T>(s: seq<T>): (r: seq<T>)
    ensures |r| == |s|
  {
    seq(|s|, i requires 0 <= i < |s| => s[|s| - 1 - i])
  }

  ghost predicate Distinct<T>(s: seq<T>) {
    forall i, j :: 0 <= i < j < |s| ==> s[i] != s[j]
  }

  ghost predicate SameElements<T>(a: seq<T>, b: seq<T>) {
    (forall e :: e in a ==> e in b) && (forall e :: e in b ==> e in a)
  }

  lemma RotatedElements<T>(s: seq<T>, k: nat)
    requires k < |s|
    ensures SameElements(Rotate(s, k), s)
  {
    assert s == s[..k] + s[k..];
  }

  lemma ReversedElements<T>(s: seq<T>)
    ensures SameElements(Reverse(s), s) && (Distinct(s) ==> Distinct(Reverse(s)))
  {
    forall e | e in s ensures e in Reverse(s) {
      var i :| 0 <= i < |s| && s[i] == e;
      assert Reverse(s)[|s| - 1 - i] == e;
    }
  }

  /** Rotating on from a rotation is rotating the original. */
  lemma RotateTwice<T>(s: seq<T>, start: nat, k: nat)
    requires start < |s| && k < |s|
    ensures Rotate(Rotate(s, start), if start <= k then k - start else k - start + |s|) == Rotate(s, k)
  {
    if start <= k { RotateOn(s, start, k); } else { RotateBack(s, start, k); }
  }

  lemma RotateOn<T>(s: seq<T>, start: nat, k: nat)
    requires start <= k < |s|
    ensures Rotate(Rotate(s, start), k - start) == Rotate(s, k)
  {
    var seen := Rotate(s, start);
    assert seen[k - start..] == s[k..] + s[..start] && seen[..k - start] == s[start..k];
    assert s[..start] + s[start..k] == s[..k];
  }

  lemma RotateBack<T>(s: seq<T>, start: nat, k: nat)
    requires k < start < |s|
    ensures Rotate(Rotate(s, start), k - start + |s|) == Rotate(s, k)
  {
    var seen, at := Rotate(s, start), k - start + |s|;
    assert seen[at..] == s[k..start] && seen[..at] == s[start..] + s[..k];
    assert s[k..start] + s[start..] == s[k..];
  }

  lemma RotatedRing(ring: seq<ListEntry>, k: nat)
    requires Ring(ring) && k < |ring|
    ensures Ring(Rotate(ring, k))
  {
    var r, n := Rotate(ring, k), |ring|;
    assert forall i :: 0 <= i < n ==> r[i] == if i < n - k then ring[k + i] else ring[k + i - n];
  }

  /** The first entry that is not a record; null if all are. */
  function FirstNonRecord(s: seq<ListEntry>, signature: dword): (r: ListEntry?)
    ensures r == null <==> forall e :: e in s ==> e.signature == signature
    ensures r != null ==> exists i :: 0 <= i < |s| && s[i] == r && IsFirst(s, signature, i)
  {
    if s == [] then null
    else if s[0].signature != signature then
      assert IsFirst(s, signature, 0);
      s[0]
    else
      var r := FirstNonRecord(s[1..], signature);
      assert forall i :: 0 <= i < |s| - 1 && IsFirst(s[1..], signature, i) ==> IsFirst(s, signature, i + 1);
      r
  }

  /** Entry i is not a record, but all before it are. */
  ghost predicate IsFirst(s: seq<ListEntry>, signature: dword, i: nat)
    requires i < |s|
  {
    s[i].signature != signature && forall j :: 0 <= j < i ==> s[j].signature == signature
  }

  /** The search loop: goes round the ring from the record, once at most. */
  method FindHead(entry: ListEntry, signature: dword, ghost ring: seq<ListEntry>) returns (head: ListEntry?)
    requires Ring(ring) && ring[0] == entry
    ensures head == FirstNonRecord(ring[1..], signature)
  {
    var e := entry.forwardLink;
    ghost var i := 1;
    while e != entry
      invariant 1 <= i <= |ring| && e == (if i < |ring| then ring[i] else entry)
      invariant FirstNonRecord(ring[i..], signature) == FirstNonRecord(ring[1..], signature)
      decreases |ring| - i
    {
      assert ring[i..][1..] == ring[i + 1..];
      if e.signature != signature {
        return e;
      }
      e := e.forwardLink;
      i := i + 1;
    }
    return null;
  }

  /** Follows the forward links from the head until they come back to it. */
  method DumpForward(head: ListEntry, ghost ring: seq<ListEntry>) returns (visited: seq<ListEntry>)
    requires Ring(ring) && ring[0] == head
    ensures visited == ring[1..]
  {
    visited := [];
    var e := head.forwardLink;
    while e != head
      invariant |visited| < |ring| && visited == ring[1..|visited| + 1]
      invariant e == (if |visited| + 1 < |ring| then ring[|visited| + 1] else head)
      decreases |ring| - |visited|
    {
      visited := visited + [e];
      e := e.forwardLink;
    }
  }

  /** Follows the back links from the head until they come back to it. */
  method DumpBackward(head: ListEntry, ghost ring: seq<ListEntry>) returns (visited: seq<ListEntry>)
    requires Ring(ring) && ring[0] == head
    ensures visited == Reverse(ring[1..])
  {
    visited := [];
    var e := head.backLink;
    while e != head
      invariant |visited| < |ring| && e == ring[if |visited| + 1 < |ring| then |ring| - 1 - |visited| else 0]
      invariant forall i :: 0 <= i < |visited| ==> visited[i] == ring[|ring| - 1 - i]
      decreases |ring| - |visited|
    {
      visited := visited + [e];
      e := e.backLink;
    }
  }

  /** The ring has exactly one entry that is not a record: its k-th. */
  ghost predicate OneHead(ring: seq<ListEntry>, k: nat, signature: dword) {
    k < |ring| && forall i :: 0 <= i < |ring| ==> (ring[i].signature == signature <==> i != k)
  }

  /** The search from a record finds the head. */
  lemma HeadIsFound(ring: seq<ListEntry>, k: nat, signature: dword)
    requires 0 < k && OneHead(ring, k, signature)
    ensures FirstNonRecord(ring[1..], signature) == ring[k]
  {
    assert ring[1..][k - 1] == ring[k];
    assert forall i :: 0 <= i < |ring| - 1 ==> ring[1..][i] == ring[i + 1];
  }

  /**
   * The dump from the entry that the search finds, starting from any record, meets only records if and only if there
   * is no second entry that is not one.
   */
  lemma OnlyRecordsAreDumped(ring: seq<ListEntry>, signature: dword) returns (k: nat)
    requires Ring(ring) && ring[0].signature == signature && FirstNonRecord(ring[1..], signature) != null
    ensures 0 < k < |ring| && ring[k] == FirstNonRecord(ring[1..], signature)
    ensures (forall e :: e in Rotate(ring, k)[1..] ==> e.signature == signature) <==> OneHead(ring, k, signature)
  {
    hide Ring, Rotate, OneHead, IsFirst, FirstNonRecord;
    k := HeadPosition(ring, signature);
    OtherElements(ring, k);
    AllButHead(ring, k, signature);
  }

  lemma HeadPosition(ring: seq<ListEntry>, signature: dword) returns (k: nat)
    requires ring != [] && FirstNonRecord(ring[1..], signature) != null
    ensures 0 < k < |ring| && ring[k] == FirstNonRecord(ring[1..], signature) && ring[k].signature != signature
  {
    hide FirstNonRecord;
    var rest := ring[1..];
    var i: nat :| i < |rest| && rest[i] == FirstNonRecord(rest, signature) && IsFirst(rest, signature, i);
    k := i + 1;
  }

  /** Behind the k-th element of a rotation there are the others. */
  ghost predicate AreOthers<T>(s: seq<T>, k: nat, others: seq<T>) {
    && (forall j :: 0 <= j < |s| && j != k ==> s[j] in others)
    && (forall e :: e in others ==> exists j :: 0 <= j < |s| && j != k && s[j] == e)
  }

  lemma OtherElements<T>(s: seq<T>, k: nat)
    requires k < |s|
    ensures AreOthers(s, k, Rotate(s, k)[1..])
  {
    var behind, before := s[k + 1..], s[..k];
    forall j | 0 <= j < |s| && j != k ensures s[j] in behind + before {
      assert j > k ==> behind[j - k - 1] == s[j];
      assert j < k ==> before[j] == s[j];
    }
    forall e | e in behind + before ensures exists j :: 0 <= j < |s| && j != k && s[j] == e {
      if e in behind {
        var i :| 0 <= i < |behind| && behind[i] == e;
        assert s[i + k + 1] == e;
      } else {
        var i :| 0 <= i < |before| && before[i] == e;
        assert s[i] == e;
      }
    }
  }

  lemma AllButHead(ring: seq<ListEntry>, k: nat, signature: dword)
    requires k < |ring| && ring[k].signature != signature && AreOthers(ring, k, Rotate(ring, k)[1..])
    ensures (forall e :: e in Rotate(ring, k)[1..] ==> e.signature == signature) <==> OneHead(ring, k, signature)
  {
    hide Rotate;
  }

  /** What a dump shows: all records of the ring, each once. */
  ghost predicate AllRecordsOnce(visited: seq<ListEntry>, ring: seq<ListEntry>, signature: dword) {
    && Distinct(visited)
    && (forall e :: e in visited ==> e in ring && e.signature == signature)
    && (forall e :: e in ring && e.signature == signature ==> e in visited)
  }

  lemma DumpIsComplete(ring: seq<ListEntry>, k: nat, signature: dword)
    requires Ring(ring) && OneHead(ring, k, signature)
    ensures AllRecordsOnce(Rotate(ring, k)[1..], ring, signature)
    ensures AllRecordsOnce(Reverse(Rotate(ring, k)[1..]), ring, signature)
  {
    hide Rotate, Reverse;
    var r := Rotate(ring, k);
    RotatedRing(ring, k);
    RotatedElements(ring, k);
    RecordsBehindHead(r, ring, k, signature);
    ReversedElements(r[1..]);
  }

  lemma RecordsBehindHead(r: seq<ListEntry>, ring: seq<ListEntry>, k: nat, signature: dword)
    requires OneHead(ring, k, signature) && r != [] && r[0] == ring[k] && Distinct(r) && SameElements(r, ring)
    ensures AllRecordsOnce(r[1..], ring, signature)
  {
    assert r == [r[0]] + r[1..];
    forall e | e in r[1..] ensures e in ring && e.signature == signature {
      assert e in r;
      var i :| 0 <= i < |ring| && ring[i] == e;
    }
  }

  /** What the dumps below rest on. */
  lemma DumpFromHead(ring: seq<ListEntry>, k: nat, signature: dword)
    requires Ring(ring) && OneHead(ring, k, signature)
    ensures k < |ring|
    ensures Ring(Rotate(ring, k)) && Rotate(ring, k)[0] == ring[k]
    ensures AllRecordsOnce(Rotate(ring, k)[1..], ring, signature)
    ensures AllRecordsOnce(Reverse(Rotate(ring, k)[1..]), ring, signature)
  {
    hide Ring, AllRecordsOnce, Reverse;
    RotatedRing(ring, k);
    DumpIsComplete(ring, k, signature);
  }

  // ---------- the dumps of the DXE core's lists ----------

  const HANDLE: dword := 0x6C64_6E68   // 'hndl'
  const EVENT: dword := 0x746E_7665    // 'evnt'

  class DxeCore {
    var handleList: ListEntry?
    var signalQueue: ListEntry?
    var timerList: ListEntry?

    constructor ()
      ensures handleList == null && signalQueue == null && timerList == null
    {
      handleList, signalQueue, timerList := null, null, null;
    }

    /** Sets the list head, if the search finds one. */
    method GetHandleList(handle: ListEntry, ghost ring: seq<ListEntry>)
      requires Ring(ring) && ring[0] == handle
      modifies this`handleList
      ensures var found := FirstNonRecord(ring[1..], HANDLE);
        handleList == if found == null then old(handleList) else found
    {
      var head := FindHead(handle, HANDLE, ring);
      if head != null { handleList := head; }
    }

    method GetEventSignalQueue(event: ListEntry, ghost ring: seq<ListEntry>)
      requires Ring(ring) && ring[0] == event
      modifies this`signalQueue
      ensures var found := FirstNonRecord(ring[1..], EVENT);
        signalQueue == if found == null then old(signalQueue) else found
    {
      var head := FindHead(event, EVENT, ring);
      if head != null { signalQueue := head; }
    }

    method GetTimerList(event: ListEntry, ghost ring: seq<ListEntry>)
      requires Ring(ring) && ring[0] == event
      modifies this`timerList
      ensures var found := FirstNonRecord(ring[1..], EVENT);
        timerList == if found == null then old(timerList) else found
    {
      var head := FindHead(event, EVENT, ring);
      if head != null { timerList := head; }
    }

    /** From any handle, the dump shows every handle once, in ring order from the head. */
    method DumpHandles(handle: ListEntry, ghost ring: seq<ListEntry>, ghost k: nat) returns (visited: seq<ListEntry>)
      requires Ring(ring) && ring[0] == handle && 0 < k && OneHead(ring, k, HANDLE)
      modifies this`handleList
      ensures handleList == ring[k]
      ensures visited == Rotate(ring, k)[1..] && AllRecordsOnce(visited, ring, HANDLE)
    {
      hide Ring, AllRecordsOnce, OneHead, Rotate, Reverse, FirstNonRecord;
      HeadFound(ring, k, HANDLE);
      DumpFromHead(ring, k, HANDLE);
      GetHandleList(handle, ring);
      visited := DumpForward(handleList, Rotate(ring, k));
    }

    /**
     * The dummy event of the tool serves to find the head and is then closed. The dump shows every other event of the
     * queue once, in reverse ring order from the head.
     */
    method DumpSignalQueue(event: ListEntry, ghost ring: seq<ListEntry>, ghost k: nat) returns (visited: seq<ListEntry>)
      requires Ring(ring) && ring[0] == event && 0 < k && OneHead(ring, k, EVENT)
      modifies this`signalQueue, ring
      ensures signalQueue == ring[k] && Ring(ring[1..])
      ensures visited == Reverse(Rotate(ring[1..], k - 1)[1..]) && AllRecordsOnce(visited, ring[1..], EVENT)
    {
      hide Ring, AllRecordsOnce, OneHead, Rotate, Reverse, FirstNonRecord;
      HeadFound(ring, k, EVENT);
      GetEventSignalQueue(event, ring);
      CloseEvent(event, ring);
      DumpFromHead(ring[1..], k - 1, EVENT);
      visited := DumpBackward(signalQueue, Rotate(ring[1..], k - 1));
    }

    method DumpTimerList(event: ListEntry, ghost ring: seq<ListEntry>, ghost k: nat) returns (visited: seq<ListEntry>)
      requires Ring(ring) && ring[0] == event && 0 < k && OneHead(ring, k, EVENT)
      modifies this`timerList, ring
      ensures timerList == ring[k] && Ring(ring[1..])
      ensures visited == Reverse(Rotate(ring[1..], k - 1)[1..]) && AllRecordsOnce(visited, ring[1..], EVENT)
    {
      hide Ring, AllRecordsOnce, OneHead, Rotate, Reverse, FirstNonRecord;
      HeadFound(ring, k, EVENT);
      GetTimerList(event, ring);
      CloseEvent(event, ring);
      DumpFromHead(ring[1..], k - 1, EVENT);
      visited := DumpBackward(timerList, Rotate(ring[1..], k - 1));
    }
  }

  lemma HeadFound(ring: seq<ListEntry>, k: nat, signature: dword)
    requires 0 < k && OneHead(ring, k, signature)
    ensures 1 <= k < |ring| && FirstNonRecord(ring[1..], signature) == ring[k] == ring[1..][k - 1]
    ensures OneHead(ring[1..], k - 1, signature)
  {
    HeadIsFound(ring, k, signature);
  }

  /** Closing an event takes it out of its list. */
  method CloseEvent(event: ListEntry, ghost ring: seq<ListEntry>)
    requires Ring(ring) && ring[0] == event && |ring| > 1
    modifies ring
    ensures Ring(ring[1..])
  {
    var before, behind := event.backLink, event.forwardLink;
    assert behind == ring[1] && before == ring[|ring| - 1];
    before.forwardLink := behind;
    behind.backLink := before;
  }

  /** The dump does not depend on the record the search starts from. */
  lemma StartDoesNotMatter(ring: seq<ListEntry>, k: nat, start: nat, signature: dword)
    requires OneHead(ring, k, signature) && start < |ring| && start != k
    ensures var seen := Rotate(ring, start); var at := if start <= k then k - start else k - start + |ring|;
      at > 0 && OneHead(seen, at, signature) && Rotate(seen, at) == Rotate(ring, k)
  {
    RotateTwice(ring, start, k);
    var seen, n := Rotate(ring, start), |ring|;
    assert forall i :: 0 <= i < n ==> seen[i] == if i < n - start then ring[start + i] else ring[start + i - n];
  }
}
