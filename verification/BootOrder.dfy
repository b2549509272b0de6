/** Adding boot options: the BootOrder variable and the numbers given to new options. */
module BootOrder {
  import opened Memory
  import opened Options

  /** The loop bound, and what is returned when the loop finds nothing. */
  const LIMIT: nat := 0xFFFF

  function EntryAt(bytes: seq<byte>, i: nat): word
    requires 2 * i + 1 < |bytes|
  {
    var low: int, high: int := bytes[2 * i], bytes[2 * i + 1];
    low + 0x100 * high
  }

  /** The value of BootOrder as 16-bit numbers; an odd byte at the end belongs to none. */
  function Entries(bytes: seq<byte>): (r: seq<word>)
    ensures |r| == |bytes| / 2
  {
    seq(|bytes| / 2, i requires 0 <= i < |bytes| / 2 => EntryAt(bytes, i))
  }

  function OrderOf(v: Option<seq<byte>>): seq<word> {
    match v
    case None => []
    case Some(bytes) => Entries(bytes)
  }

  /** The number a new option gets: the count of entries, as long as there is one below the limit. */
  function NewIndex(order: seq<word>): word {
    if |order| < LIMIT then |order| else LIMIT
  }

  /** The order after an add. */
  function Extended(order: seq<word>): seq<word> {
    if |order| < LIMIT then [NewIndex(order)] + order else order
  }

  lemma EntriesPrepend(i: word, bytes: seq<byte>)
    ensures Entries(Encode16(i) + bytes) == [i] + Entries(bytes)
  {
    var all := Encode16(i) + bytes;
    forall k | 0 <= k < |all| / 2 ensures Entries(all)[k] == ([i] + Entries(bytes))[k] {
      if k > 0 {
        assert all[2 * k] == bytes[2 * (k - 1)] && all[2 * k + 1] == bytes[2 * (k - 1) + 1];
      }
    }
  }

  /** The variables the tool writes. */
  class Variables {
    var bootOrder: Option<seq<byte>>
    var options: map<word, seq<byte>>

    constructor ()
      ensures bootOrder == None && options == map[]
    {
      bootOrder, options := None, map[];
    }

    ghost function Order(): seq<word>
      reads this
    {
      OrderOf(bootOrder)
    }

    /**
     * Puts a new number in front of the order. The search compares the number with the positions, not with the
     * entries.
     */
    method GetNewBootIndex() returns (index: word)
      modifies this`bootOrder
      ensures index == NewIndex(old(Order())) && Order() == Extended(old(Order()))
    {
      if bootOrder.None? {
        EntriesPrepend(0, []);
        assert Encode16(0) + [] == Encode16(0);
        bootOrder := Some(Encode16(0));
        return 0;
      }
      var bytes := bootOrder.value;
      var newIndex: word := 0;
      while newIndex < LIMIT
        invariant newIndex <= LIMIT && newIndex <= |bytes| / 2 && unchanged(this)
        decreases LIMIT - newIndex
      {
        var matched := Match(newIndex, |bytes| / 2);
        if !matched {
          EntriesPrepend(newIndex, bytes);
          bootOrder := Some(Encode16(newIndex) + bytes);
          return newIndex;
        }
        newIndex := newIndex + 1;
      }
      return LIMIT;
    }

    /** The inner loop: whether the number is one of the positions. */
    static method Match(newIndex: word, count: nat) returns (matched: bool)
      ensures matched <==> newIndex < count
    {
      matched := false;
      var index := 0;
      while index < count
        invariant index <= count && (matched <==> newIndex < index)
      {
        if newIndex == index {
          matched := true;
        }
        index := index + 1;
      }
    }

    /** Writes the option under the new number. */
    method AddBootOption(option: seq<byte>) returns (index: word)
      modifies this
      ensures index == NewIndex(old(Order())) && Order() == Extended(old(Order()))
      ensures options == old(options)[index := option]
    {
      index := GetNewBootIndex();
      options := options[index := option];
    }

    /** Adds several options, one by one. */
    method AddAll(news: seq<seq<byte>>) returns (indices: seq<word>)
      modifies this
      ensures Order() == ExtendedTimes(old(Order()), |news|) && indices == IndicesTimes(old(Order()), |news|)
      ensures options == Store(old(options), indices, news)
    {
      indices := [];
      ghost var start := Order();
      var i := 0;
      while i < |news|
        invariant i <= |news| && Order() == ExtendedTimes(start, i) && indices == IndicesTimes(start, i)
        invariant options == Store(old(options), indices, news[..i])
      {
        var index := AddBootOption(news[i]);
        assert news[..i + 1][..i] == news[..i];
        assert (indices + [index])[..i] == indices;
        indices := indices + [index];
        i := i + 1;
      }
      assert news[..i] == news;
    }
  }

  // ---------- runs of adds ----------

  function ExtendedTimes(order: seq<word>, k: nat): seq<word> {
    if k == 0 then order else Extended(ExtendedTimes(order, k - 1))
  }

  function IndicesTimes(order: seq<word>, k: nat): (r: seq<word>)
    ensures |r| == k
  {
    if k == 0 then [] else IndicesTimes(order, k - 1) + [NewIndex(ExtendedTimes(order, k - 1))]
  }

  function Store(options: map<word, seq<byte>>, indices: seq<word>, news: seq<seq<byte>>): map<word, seq<byte>>
    requires |indices| == |news|
  {
    if news == [] then options
    else Store(options, indices[..|news| - 1], news[..|news| - 1])[indices[|news| - 1] := news[|news| - 1]]
  }

  /** k - 1, ..., 1, 0 */
  function CountDown(k: nat): seq<word>
    requires k <= LIMIT
  {
    seq(k, i requires 0 <= i < k => k - 1 - i)
  }

  /** k adds to an absent BootOrder give the order k - 1, ..., 0, and the numbers 0, ..., k - 1. */
  lemma {:induction false} RunFromAbsent(k: nat)
    requires k <= LIMIT
    ensures ExtendedTimes([], k) == CountDown(k)
    ensures forall i :: 0 <= i < k ==> IndicesTimes([], k)[i] == i
  {
    if k > 0 {
      RunFromAbsent(k - 1);
      assert [k - 1] + CountDown(k - 1) == CountDown(k);
    }
  }

  /** In such a run no name is written twice, so in the end every option added is there under its number. */
  lemma {:induction false} RunKeepsAll(options: map<word, seq<byte>>, news: seq<seq<byte>>)
    requires |news| <= 0xFFFF
    ensures forall i :: 0 <= i < |news| ==>
      var all := Store(options, IndicesTimes([], |news|), news); i in all && all[i] == news[i]
    ensures forall w :: |news| <= w && w in options ==>
      var all := Store(options, IndicesTimes([], |news|), news); w in all && all[w] == options[w]
    decreases |news|
  {
    hide IndicesTimes, ExtendedTimes;
    if news != [] {
      var k := |news|;
      RunFromAbsent(k);
      RunFromAbsent(k - 1);
      RunKeepsAll(options, news[..k - 1]);
      assert IndicesTimes([], k)[..k - 1] == IndicesTimes([], k - 1);
      var before := Store(options, IndicesTimes([], k - 1), news[..k - 1]);
      assert Store(options, IndicesTimes([], k), news) == before[k - 1 := news[k - 1]];
    }
  }

  /** The numbers 0 to |order| - 1, each once. */
  predicate IsPermutation(order: seq<word>) {
    && (forall i :: 0 <= i < |order| ==> order[i] < |order|)
    && (forall i, j :: 0 <= i < j < |order| ==> order[i] != order[j])
  }

  /** Permutations stay permutations, so the number given is new; and they always have all the numbers. */
  lemma PermutationKept(order: seq<word>)
    requires IsPermutation(order) && |order| < LIMIT
    ensures IsPermutation(Extended(order)) && NewIndex(order) !in order
  {
    forall i | 0 <= i < |order| ensures order[i] < NewIndex(order) {
    }
  }

  lemma {:induction false} PermutationKeptTimes(order: seq<word>, k: nat)
    requires IsPermutation(order) && |order| + k <= LIMIT
    ensures IsPermutation(ExtendedTimes(order, k)) && |ExtendedTimes(order, k)| == |order| + k
  {
    if k > 0 {
      PermutationKeptTimes(order, k - 1);
      PermutationKept(ExtendedTimes(order, k - 1));
    }
  }

  // ---------- orders that are not permutations ----------

  predicate NoDuplicates(order: seq<word>) {
    forall i, j :: 0 <= i < j < |order| ==> order[i] != order[j]
  }

  /** An add puts a new entry into the order. */
  predicate AddsNew(order: seq<word>) {
    Extended(order) == [NewIndex(order)] + order && NewIndex(order) !in order
  }

  /**
   * It does so exactly when the count of entries is below the limit and not itself an entry; only then the order
   * stays without duplicates.
   */
  lemma NewExactlyWhen(order: seq<word>)
    ensures AddsNew(order) <==> |order| < 0xFFFF && |order| !in order
    ensures |order| >= 0xFFFF ==> Extended(order) == order && NewIndex(order) == 0xFFFF
    ensures |order| < LIMIT && NoDuplicates(order) ==> (NoDuplicates(Extended(order)) <==> |order| !in order)
  {
    if AddsNew(order) {
      assert |Extended(order)| == |order| + 1;
    }
    if |order| < LIMIT && |order| in order {
      var j :| 0 <= j < |order| && order[j] == |order|;
      assert Extended(order)[0] == Extended(order)[j + 1];
    }
  }

  /** It fails for the one entry 1: the new option gets the number 1, and overwrites Boot0001. */
  lemma NotNew(present: seq<byte>, option: seq<byte>)
    ensures !AddsNew([1]) && Extended([1]) == [1, 1]
    ensures IndicesTimes([1], 1) == [1] && Store(map[1 := present], [1], [option]) == map[1 := option]
  {
    assert 1 in [1];
    assert ExtendedTimes([1], 0) == [1] && IndicesTimes([1], 0) == [];
    assert [1 as word][..0] == [] && [option][..0] == [];
    assert Store(map[1 := present], [], []) == map[1 := present];
  }
}
