/** The table of remote calls that wait for an answer: m_methodCalls and m_numCalls. */
module CallTable {
  import opened Bytes

  datatype Call = Call(name: seq<Byte>, txn: int)

  function Without(s: seq<Call>, i: nat): (r: seq<Call>)
    requires i < |s|
  {
    s[..i] + s[i + 1..]
  }

  predicate BlockFits(num: nat, length: nat) {
    num % 16 != 0 ==> num - num % 16 + 16 <= length
  }

  lemma OneLess(num: nat, length: nat)
    requires 0 < num <= length && BlockFits(num, length)
    ensures BlockFits(num - 1, length)
  {
  }

  lemma ShiftedDown(was: seq<Call>, now: seq<Call>, i: nat, n: nat)
    requires i <= n < |was| == |now|
    requires forall k :: 0 <= k < i ==> now[k] == was[k]
    requires forall k :: i <= k < n ==> now[k] == was[k + 1]
    ensures now[..n] == Without(was[..n + 1], i)
  {
    assert was[..n + 1][..i] == was[..i] && was[..n + 1][i + 1..] == was[i + 1..n + 1];
    forall k | 0 <= k < n ensures now[..n][k] == (was[..i] + was[i + 1..n + 1])[k] {
      assert now[k] == was[if k < i then k else k + 1];
    }
  }

  class Table {
    var vals: array<Call>
    var num: nat

    /** The table was grown by 16 whenever the count was a multiple of 16, so the block the
        count falls in is allocated to its end. */
    ghost predicate Valid()
      reads this
    {
      num <= vals.Length && BlockFits(num, vals.Length)
    }

    ghost function Contents(): seq<Call>
      reads this, vals
      requires Valid()
    {
      vals[..num]
    }

    constructor ()
      ensures Valid() && fresh(vals) && Contents() == []
    {
      vals := new Call[0];
      num := 0;
    }

    /** AV_queue. */
    method Queue(c: Call)
      requires Valid()
      modifies this, vals
      ensures Valid() && Contents() == old(Contents()) + [c]
      ensures vals == old(vals) || fresh(vals)
    {
      if num % 16 == 0 {
        var grown := new Call[num + 16];
        var i := 0;
        while i < num
          invariant i <= num == old(num) && vals == old(vals) && vals[..] == old(vals[..])
          invariant grown[..i] == vals[..i]
        {
          grown[i] := vals[i];
          i := i + 1;
        }
        vals := grown;
      }
      vals[num] := c;
      num := num + 1;
    }

    /** AV_erase. */
    method Erase(i: nat)
      requires Valid() && i < num
      modifies this, vals
      ensures Valid() && vals == old(vals)
      ensures Contents() == Without(old(Contents()), i)
    {
      hide BlockFits;
      OneLess(num, vals.Length);
      num := num - 1;
      ghost var was := vals[..];
      var j := i;
      while j < num
        invariant i <= j <= num == old(num) - 1 && vals == old(vals)
        invariant forall k :: 0 <= k < i ==> vals[k] == was[k]
        invariant forall k :: i <= k < j ==> vals[k] == was[k + 1]
        invariant forall k :: j <= k <= num ==> vals[k] == was[k]
      {
        vals[j] := vals[j + 1];
        j := j + 1;
      }
      vals[j] := Call([], 0);
      ShiftedDown(was, vals[..], i, num);
    }

    /** AV_clear and the reset in RTMP_Close. */
    method Clear()
      modifies this
      ensures Valid() && fresh(vals) && Contents() == []
    {
      vals := new Call[0];
      num := 0;
    }

    /** The first waiting call with a given transaction id, or num. */
    method FindTxn(txn: int) returns (i: nat)
      requires Valid()
      ensures i <= num && (i < num ==> Contents()[i].txn == txn)
      ensures forall k :: 0 <= k < i ==> Contents()[k].txn != txn
    {
      i := 0;
      while i < num && vals[i].txn != txn
        invariant i <= num && forall k :: 0 <= k < i ==> vals[k].txn != txn
      {
        i := i + 1;
      }
    }

    /** The first waiting call with a given name, or num. */
    method FindName(name: seq<Byte>) returns (i: nat)
      requires Valid()
      ensures i <= num && (i < num ==> Contents()[i].name == name)
      ensures forall k :: 0 <= k < i ==> Contents()[k].name != name
    {
      i := 0;
      while i < num && vals[i].name != name
        invariant i <= num && forall k :: 0 <= k < i ==> vals[k].name != name
      {
        i := i + 1;
      }
    }
  }
}
