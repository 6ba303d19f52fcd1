/**
  PaxosKV's proposal numbers: a counter in the high bits and the proposer's id in the low
  sixteen, and the generator that moves one proposer's counter past a hint.
 */
module PropNum {

  const ID_SPAN := 0x1_0000

  type ProposerId = id: nat | id < ID_SPAN

  function Compose(id: ProposerId, cnt: nat): (num: nat)
    ensures IdOf(num) == id && CntOf(num) == cnt
  {
    cnt * ID_SPAN + id
  }

  function IdOf(num: nat): ProposerId {
    num % ID_SPAN
  }

  function CntOf(num: nat): nat {
    num / ID_SPAN
  }

  lemma ComposeBack(num: nat)
    ensures Compose(IdOf(num), CntOf(num)) == num
  {
  }

  // The numbers are ordered by counter first, id second.
  lemma NumbersAreLexicographic(a: nat, b: nat)
    ensures a < b <==> CntOf(a) < CntOf(b) || (CntOf(a) == CntOf(b) && IdOf(a) < IdOf(b))
  {
    ComposeBack(a);
    ComposeBack(b);
  }

  datatype Gen = Gen(id: ProposerId, cnt: nat) {
    function Get(): nat {
      Compose(id, cnt)
    }
  }

  function FromNum(num: nat): (g: Gen)
    ensures g.Get() == num
  {
    ComposeBack(num);
    Gen(IdOf(num), CntOf(num))
  }

  // Move the counter so that the number is not below the hint.
  function Raised(g: Gen, hint: nat): (g': Gen)
    ensures g'.id == g.id && g'.Get() >= hint && g'.Get() >= g.Get()
  {
    if g.Get() >= hint then g
    else
      ComposeBack(hint);
      Gen(g.id, if IdOf(hint) > g.id then CntOf(hint) + 1 else CntOf(hint))
  }

  // The same, but strictly above the hint.
  function Past(g: Gen, hint: nat): (g': Gen)
    ensures g'.id == g.id && g'.Get() > hint && g'.Get() >= g.Get()
  {
    var up := Raised(g, hint);
    if up.Get() == hint then Gen(up.id, up.cnt + 1) else up
  }

  // Neither skips a number: any number of this proposer that would do is at least as large.
  lemma RaisedIsLeast(g: Gen, hint: nat, cnt: nat)
    requires Compose(g.id, cnt) >= hint && cnt >= g.cnt
    ensures Raised(g, hint).Get() <= Compose(g.id, cnt)
  {
    ComposeBack(hint);
  }

  lemma PastIsLeast(g: Gen, hint: nat, cnt: nat)
    requires Compose(g.id, cnt) > hint && cnt >= g.cnt
    ensures Past(g, hint).Get() <= Compose(g.id, cnt)
  {
    ComposeBack(hint);
    RaisedIsLeast(g, hint, cnt);
  }

  // The generator in the form the program gives it.
  class PropNumGen {
    var selfId: ProposerId
    var propCnt: nat

    function View(): Gen
      reads this
    {
      Gen(selfId, propCnt)
    }

    constructor (selfId: ProposerId, propCnt: nat)
      ensures View() == Gen(selfId, propCnt)
    {
      this.selfId := selfId;
      this.propCnt := propCnt;
    }

    constructor FromNumber(num: nat)
      ensures View() == FromNum(num)
    {
      selfId := IdOf(num);
      propCnt := CntOf(num);
    }

    function Get(): nat
      reads this
    {
      Compose(selfId, propCnt)
    }

    method Update(num: nat) returns (moved: bool)
      modifies this
      ensures View() == Raised(old(View()), num)
      ensures moved <==> old(Get()) < num
    {
      if Get() >= num {
        return false;
      }
      var id, cnt := IdOf(num), CntOf(num);
      ComposeBack(num);
      if id > selfId {
        propCnt := cnt + 1;
      } else {
        propCnt := cnt;
      }
      assert Get() >= num;
      return true;
    }

    method Next(hint: nat) returns (num: nat)
      modifies this
      ensures View() == Past(old(View()), hint) && num == Get()
    {
      var _ := Update(hint);
      assert Get() >= hint;
      if Get() == hint {
        propCnt := propCnt + 1;
      }
      assert Get() > hint;
      return Get();
    }

    predicate IsLocalNum(num: nat)
      reads this
    {
      selfId == IdOf(num)
    }
  }

  // Request ids carry the server that issued them in the top sixteen of sixty-four bits.
  const MEMBER_SPAN := 0x1_0000_0000_0000

  function MemberOf(reqid: nat): nat {
    reqid / MEMBER_SPAN % 0x1_0000
  }

  predicate BelongsTo(reqid: nat, member: nat) {
    reqid != 0 && MemberOf(reqid) == member
  }
}
