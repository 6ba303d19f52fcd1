/**
  Where PaxosKV puts the three replicas of a key.  The servers fall into as many classes as there
  are groups, by their number; replicas of one key belong in different classes.
 */
module KvClientRoute {
  import opened Arithmetic

  datatype Result<+T> = Ok(value: T) | Err(code: int)

  const BAD_GROUPS := -40003

  predicate IsValid(count: nat, groups: nat) {
    2 <= groups <= count && count % groups == 0
  }

  // So many rounds of the servers until the placement repeats.
  function Rounds(count: nat, groups: nat): (k: nat)
    requires IsValid(count, groups)
    ensures k > 0 && k == (count / groups) * (groups - 1)
  {
    RoundsArePositive(count, groups);
    count - count / groups
  }

  lemma RoundsArePositive(count: nat, groups: nat)
    requires IsValid(count, groups)
    ensures count / groups > 0 && count - count / groups == (count / groups) * (groups - 1) > 0
  {
    var m := count / groups;
    assert count == m * groups;
    assert m > 0;
    assert m * groups - m == m * (groups - 1);
    assert m * (groups - 1) >= m;
  }

  function Period(count: nat, groups: nat): (k: nat)
    requires IsValid(count, groups)
    ensures k > 0
  {
    count * Rounds(count, groups)
  }

  // Which round of the servers the key falls in.
  function OffsetOf(count: nat, groups: nat, key: nat): nat
    requires IsValid(count, groups)
  {
    Quotient(key % Period(count, groups), count)
  }

  function Shift(offset: nat, groups: nat): nat
    requires groups >= 2
  {
    offset + offset / (groups - 1) + 1
  }

  // The servers of the master and the slave, numbered from 1.
  function GetSvrIDByDistributeKey(count: nat, groups: nat, key: nat): Result<(nat, nat)> {
    if !IsValidInSource(count, groups) then Err(BAD_GROUPS)
    else
      var master := key % count;
      var slave := (master + Shift(OffsetOf(count, groups, key), groups)) % count;
      Ok((master + 1, slave + 1))
  }

  // The server of the third replica.
  function GetCSvrIDByDistributeKey(count: nat, groups: nat, key: nat): Result<nat> {
    if !IsValidInSource(count, groups) then Err(BAD_GROUPS)
    else
      var master := key % count;
      var offset := OffsetOf(count, groups, key);
      Ok((master + offset + 2 + (offset + 1) / (groups - 1)) % count + 1)
  }

  // The checks as the source makes them.
  predicate IsValidInSource(count: nat, groups: nat)
    ensures IsValidInSource(count, groups) <==> IsValid(count, groups)
  {
    !(groups > count || groups < 2 || count <= 0 || groups <= 0 || count % groups != 0)
  }

  function ClassOf(server: nat, groups: nat): nat
    requires groups > 0 && server > 0
  {
    (server - 1) % groups
  }

  // ---- arithmetic ----

  lemma ModMod(x: nat, count: nat, groups: nat)
    requires count > 0 && groups > 0 && count % groups == 0
    ensures (x % count) % groups == x % groups
  {
    var q, m := x / count, count / groups;
    assert x == q * count + x % count && count == m * groups;
    Associates(q, m, groups);
    ModOfProduct(q * m, groups);
    AddMultiple(x % count, groups, q * count);
  }

  // Adding a shift that is no multiple of the number of groups changes the class, and two shifts
  // lead to one class only when they differ by a multiple.
  lemma SameClass(a: nat, x: nat, y: nat, groups: nat)
    requires groups > 0 && x < groups && y < groups
    ensures (a + x) % groups == (a + y) % groups <==> x == y
  {
    if x < y && (a + x) % groups == (a + y) % groups {
      ApartInMod(a + x, a + y, groups);
    }
    if y < x && (a + x) % groups == (a + y) % groups {
      ApartInMod(a + y, a + x, groups);
    }
  }

  lemma ApartInMod(a: nat, b: nat, d: nat)
    requires d > 0 && a < b < a + d
    ensures a % d != b % d
  {
    var i, j := a / d, b / d;
    assert a == i * d + a % d && b == j * d + b % d;
    NextProduct(i, j, d);
    NextProduct(j, i, d);
  }

  // A shift is the place in its group, and so many whole groups.
  lemma ShiftIs(offset: nat, groups: nat)
    requires groups >= 2
    ensures Shift(offset, groups) == offset / (groups - 1) * groups + offset % (groups - 1) + 1
    ensures Shift(offset, groups) % groups == offset % (groups - 1) + 1
  {
    var q, r := offset / (groups - 1), offset % (groups - 1);
    assert offset == q * (groups - 1) + r;
    assert q * (groups - 1) + q == q * groups;
    DivUnique(Shift(offset, groups), groups, q, r + 1);
  }

  // How far the third replica is, in its class.
  lemma ThirdShiftIs(offset: nat, groups: nat)
    requires groups >= 2
    ensures (offset + 2 + (offset + 1) / (groups - 1)) == Shift(offset + 1, groups)
    ensures (offset + 1) % (groups - 1) == if offset % (groups - 1) + 1 == groups - 1 then 0 else offset % (groups - 1) + 1
  {
    var q, r := offset / (groups - 1), offset % (groups - 1);
    assert offset + 1 == q * (groups - 1) + (r + 1);
    if r + 1 == groups - 1 {
      OneMore(q, groups - 1);
      DivUnique(offset + 1, groups - 1, q + 1, 0);
    } else {
      DivUnique(offset + 1, groups - 1, q, r + 1);
    }
  }

  lemma ClassAfter(master: nat, shift: nat, count: nat, groups: nat)
    requires IsValid(count, groups)
    ensures ((master + shift) % count) % groups == (master + shift % groups) % groups
  {
    ModMod(master + shift, count, groups);
    var k := shift / groups * groups;
    assert shift == shift % groups + k;
    ModOfProduct(shift / groups, groups);
    AddMultiple(master + shift % groups, groups, k);
  }

  // ---- the replicas of a key are in different classes ----

  // For every key: the master's class is neither the slave's nor the third replica's; and these
  // two differ exactly when there are at least three groups.
  lemma ReplicasAreApart(count: nat, groups: nat, key: nat)
    requires IsValid(count, groups)
    ensures GetSvrIDByDistributeKey(count, groups, key).Ok? && GetCSvrIDByDistributeKey(count, groups, key).Ok?
    ensures var (a, b) := GetSvrIDByDistributeKey(count, groups, key).value;
      var c := GetCSvrIDByDistributeKey(count, groups, key).value;
      && 1 <= a <= count && 1 <= b <= count && 1 <= c <= count
      && ClassOf(a, groups) != ClassOf(b, groups) && ClassOf(a, groups) != ClassOf(c, groups)
      && (ClassOf(b, groups) != ClassOf(c, groups) <==> groups >= 3)
  {
    var offset := OffsetOf(count, groups, key);
    var master := key % count;
    var b, c := Shift(offset, groups), Shift(offset + 1, groups);
    ShiftIs(offset, groups);
    ShiftIs(offset + 1, groups);
    ThirdShiftIs(offset, groups);
    ClassAfter(master, b, count, groups);
    ClassAfter(master, c, count, groups);
    SameClass(master, 0, b % groups, groups);
    SameClass(master, 0, c % groups, groups);
    SameClass(master, b % groups, c % groups, groups);
  }

  // ---- every pair of servers in different classes serves one key of a period ----

  // The key of a period whose master is server a and whose slave is server b.
  function KeyOf(count: nat, groups: nat, a: nat, b: nat): nat
    requires IsValid(count, groups) && 1 <= a <= count && 1 <= b <= count && ClassOf(a, groups) != ClassOf(b, groups)
  {
    var shift := (b + count - a) % count;
    GapIsShift(count, groups, a, b);
    InRound(shift - shift / groups - 1, count, a - 1)
  }

  function InRound(offset: nat, count: nat, master: nat): nat {
    offset * count + master
  }

  // The distance between servers of different classes is a shift of some round.
  lemma GapIsShift(count: nat, groups: nat, a: nat, b: nat)
    requires IsValid(count, groups) && 1 <= a <= count && 1 <= b <= count && ClassOf(a, groups) != ClassOf(b, groups)
    ensures var shift := (b + count - a) % count;
      && shift - shift / groups - 1 >= 0 && shift % groups != 0
      && Shift(shift - shift / groups - 1, groups) == shift
      && shift - shift / groups - 1 < Rounds(count, groups)
  {
    var gap := b + count - a;
    var shift := gap % count;
    ModMod(gap, count, groups);
    if gap % groups == 0 {
      AddMultiple(a - 1, groups, gap);
      AddMultiple(b - 1, groups, count);
    }
    RoundIsBack(shift, groups);
    RoundIsInPeriod(shift, count, groups);
  }

  lemma RoundIsBack(shift: nat, groups: nat)
    requires groups >= 2 && shift % groups != 0
    ensures shift - shift / groups - 1 >= 0 && Shift(shift - shift / groups - 1, groups) == shift
  {
    var q, r := shift / groups, shift % groups;
    assert shift == q * groups + r;
    assert q * groups - q == q * (groups - 1);
    assert q * (groups - 1) >= 0;
    DivUnique(q * (groups - 1) + (r - 1), groups - 1, q, r - 1);
  }

  lemma RoundIsInPeriod(shift: nat, count: nat, groups: nat)
    requires IsValid(count, groups) && shift < count && shift % groups != 0
    ensures shift - shift / groups - 1 < Rounds(count, groups)
  {
    var q, r, m := shift / groups, shift % groups, count / groups;
    assert shift == q * groups + r && count == m * groups;
    NextProduct(m, q, groups);
    NextProduct(q, m, groups - 1);
    assert m > q by {
      if m <= q {
        MulOrdered(m, q, groups);
      }
    }
    assert q * groups - q == q * (groups - 1);
  }

  lemma MulOrdered(a: nat, b: nat, d: nat)
    requires a <= b
    ensures a * d <= b * d
  {
    NextProduct(a, b, d);
  }

  lemma ServersAre(count: nat, groups: nat, key: nat)
    requires IsValid(count, groups)
    ensures GetSvrIDByDistributeKey(count, groups, key) ==
      Ok((key % count + 1, (key % count + Shift(OffsetOf(count, groups, key), groups)) % count + 1))
  {
  }

  lemma RoundOn(k: nat, count: nat, rounds: nat)
    requires count > 0 && k < rounds * count
    ensures k / count < rounds && (k + count) / count == k / count + 1
    ensures k / count + 1 < rounds ==> k + count < rounds * count
    ensures k / count + 1 == rounds ==> k + count == rounds * count + k % count
  {
    var offset, master := k / count, k % count;
    assert k == offset * count + master;
    NextProduct(rounds, offset, count);
    OneMore(offset, count);
    DivUnique(k + count, count, offset + 1, master);
    NextProduct(offset + 1, rounds, count);
  }

  lemma AddInMod(x: nat, y: nat, d: nat)
    requires 0 < d && y <= d
    ensures (x + y) % d == if x % d + y < d then x % d + y else x % d + y - d
  {
    var q := x / d;
    assert x == q * d + x % d;
    OneMore(q, d);
    if x % d + y < d {
      DivUnique(x + y, d, q, x % d + y);
    } else {
      DivUnique(x + y, d, q + 1, x % d + y - d);
    }
  }

  lemma LessThanOne(r: nat, d: nat)
    requires r < d
    ensures r / d == 0
  {
    DivUnique(r, d, 0, r);
  }

  lemma OneRound(count: nat, rounds: nat)
    requires rounds > 0
    ensures count <= rounds * count
  {
    NextProduct(0, rounds, count);
  }

  // One round on a key is at the next offset, and behind the last round at the first.
  lemma NextRound(count: nat, groups: nat, key: nat)
    requires IsValid(count, groups)
    ensures OffsetOf(count, groups, key) < Rounds(count, groups)
    ensures OffsetOf(count, groups, key + count) ==
      if OffsetOf(count, groups, key) + 1 == Rounds(count, groups) then 0 else OffsetOf(count, groups, key) + 1
  {
    hide Rounds, Period;
    var rounds := Rounds(count, groups);
    var k := key % Period(count, groups);
    PeriodIs(count, groups);
    OneRound(count, rounds);
    RoundOn(k, count, rounds);
    AddInMod(key, count, Period(count, groups));
    LessThanOne(k % count, count);
  }

  lemma PeriodIs(count: nat, groups: nat)
    requires IsValid(count, groups)
    ensures Period(count, groups) == Rounds(count, groups) * count == Product(Rounds(count, groups), count)
  {
  }

  // The last shift of a period leads on to the first.
  lemma LastShift(count: nat, groups: nat)
    requires IsValid(count, groups)
    ensures Shift(Rounds(count, groups), groups) == count + Shift(0, groups)
  {
    var m := count / groups;
    assert count == m * groups;
    DivUnique(Rounds(count, groups), groups - 1, m, 0);
    DivUnique(0, groups - 1, 0, 0);
  }

  // The third replica of a key is where the slave goes one round on.
  lemma ThirdIsNextSlave(count: nat, groups: nat, key: nat)
    requires IsValid(count, groups)
    ensures GetSvrIDByDistributeKey(count, groups, key + count).Ok? && GetCSvrIDByDistributeKey(count, groups, key).Ok?
    ensures GetCSvrIDByDistributeKey(count, groups, key).value == GetSvrIDByDistributeKey(count, groups, key + count).value.1
    ensures GetSvrIDByDistributeKey(count, groups, key + count).value.0 == GetSvrIDByDistributeKey(count, groups, key).value.0
  {
    hide OffsetOf, Rounds, Period, Shift;
    var offset, master := OffsetOf(count, groups, key), key % count;
    NextRound(count, groups, key);
    ThirdShiftIs(offset, groups);
    DivUnique(count, count, 1, 0);
    AddMultiple(key, count, count);
    if offset + 1 == Rounds(count, groups) {
      LastShift(count, groups);
      AddMultiple(master + Shift(0, groups), count, count);
    }
  }

  // A key is found again from its servers, and servers from their key.
  lemma KeysAndPairs(count: nat, groups: nat, a: nat, b: nat)
    requires IsValid(count, groups) && 1 <= a <= count && 1 <= b <= count && ClassOf(a, groups) != ClassOf(b, groups)
    ensures KeyOf(count, groups, a, b) < Period(count, groups)
    ensures GetSvrIDByDistributeKey(count, groups, KeyOf(count, groups, a, b)) == Ok((a, b))
  {
    hide InRound, Period, Rounds, Shift, OffsetOf, GetSvrIDByDistributeKey, ClassOf, KeyOf;
    var key := KeyOf(count, groups, a, b);
    KeyOfParts(count, groups, a, b);
    ServersAre(count, groups, key);
    BackAgain(count, a, b);
  }

  lemma KeyOfParts(count: nat, groups: nat, a: nat, b: nat)
    requires IsValid(count, groups) && 1 <= a <= count && 1 <= b <= count && ClassOf(a, groups) != ClassOf(b, groups)
    ensures var key := KeyOf(count, groups, a, b);
      && key < Period(count, groups) && key % count == a - 1
      && Shift(OffsetOf(count, groups, key), groups) == (b + count - a) % count
  {
    hide InRound, Period, Rounds, Shift, OffsetOf, ClassOf;
    var shift := (b + count - a) % count;
    GapIsShift(count, groups, a, b);
    KeyParts(count, groups, shift - shift / groups - 1, a - 1);
  }

  lemma KeyParts(count: nat, groups: nat, offset: nat, master: nat)
    requires IsValid(count, groups) && master < count && offset < Rounds(count, groups)
    ensures InRound(offset, count, master) < Period(count, groups)
    ensures InRound(offset, count, master) % count == master && OffsetOf(count, groups, InRound(offset, count, master)) == offset
  {
    hide Rounds, Period;
    InRoundIs(offset, count, master);
    PeriodIs(count, groups);
    ProductsApart(offset, Rounds(count, groups), count);
    SmallMod(InRound(offset, count, master), Period(count, groups));
  }

  lemma InRoundIs(offset: nat, count: nat, master: nat)
    requires master < count
    ensures var key := InRound(offset, count, master);
      key == Product(offset, count) + master && key / count == offset && key % count == master
  {
    DivUnique(InRound(offset, count, master), count, offset, master);
  }

  lemma SmallMod(key: nat, period: nat)
    requires key < period
    ensures key % period == key
  {
    DivUnique(key, period, 0, key);
  }

  lemma BackAgain(count: nat, a: nat, b: nat)
    requires 1 <= a <= count && 1 <= b <= count
    ensures (a - 1 + (b + count - a) % count) % count == b - 1
  {
    if b >= a {
      DivUnique(b + count - a, count, 1, b - a);
      DivUnique(b - 1, count, 0, b - 1);
    } else {
      DivUnique(b + count - a, count, 0, b + count - a);
      DivUnique(b - 1 + count, count, 1, b - 1);
    }
  }

  lemma ShiftsDiffer(x: nat, y: nat, groups: nat)
    requires groups >= 2 && x < y
    ensures Shift(x, groups) < Shift(y, groups)
  {
    var d := groups - 1;
    var i, j := x / d, y / d;
    assert x == i * d + x % d && y == j * d + y % d;
    NextProduct(j, i, d);
  }

  // Over one period no two keys have the same master and slave.
  lemma OneKeyEach(count: nat, groups: nat, key: nat, key': nat)
    requires IsValid(count, groups) && key < Period(count, groups) && key' < Period(count, groups)
    requires GetSvrIDByDistributeKey(count, groups, key) == GetSvrIDByDistributeKey(count, groups, key')
    ensures key == key'
  {
    hide Rounds, Period, Shift, OffsetOf, GetSvrIDByDistributeKey;
    ServersAre(count, groups, key);
    ServersAre(count, groups, key');
    OffsetInPeriod(count, groups, key);
    OffsetInPeriod(count, groups, key');
    SameSlaveSameOffset(count, groups, OffsetOf(count, groups, key), OffsetOf(count, groups, key'), key % count);
    KeyIsInRound(count, groups, key);
    KeyIsInRound(count, groups, key');
  }

  lemma KeyIsInRound(count: nat, groups: nat, key: nat)
    requires IsValid(count, groups) && key < Period(count, groups)
    ensures key == InRound(OffsetOf(count, groups, key), count, key % count)
  {
    DivUnique(key, Period(count, groups), 0, key);
  }

  lemma SameSlaveSameOffset(count: nat, groups: nat, o: nat, o': nat, master: nat)
    requires count > 0 && groups >= 2 && 0 < Shift(o, groups) < count && 0 < Shift(o', groups) < count
    requires (master + Shift(o, groups)) % count == (master + Shift(o', groups)) % count
    ensures o == o'
  {
    hide Shift;
    if o < o' {
      ShiftsDiffer(o, o', groups);
      ApartInMod(master + Shift(o, groups), master + Shift(o', groups), count);
    } else if o' < o {
      ShiftsDiffer(o', o, groups);
      ApartInMod(master + Shift(o', groups), master + Shift(o, groups), count);
    }
  }

  lemma OffsetInPeriod(count: nat, groups: nat, key: nat)
    requires IsValid(count, groups) && key < Period(count, groups)
    ensures OffsetOf(count, groups, key) < Rounds(count, groups)
    ensures 0 < Shift(OffsetOf(count, groups, key), groups) < count
  {
    var o, k := OffsetOf(count, groups, key), Rounds(count, groups);
    DivUnique(key, Period(count, groups), 0, key);
    assert key == o * count + key % count;
    NextProduct(k, o, count);
    assert o < k by {
      if k <= o {
        MulOrdered(k, o, count);
      }
    }
    var d, m := groups - 1, count / groups;
    assert count == m * groups && k == m * d;
    assert o == o / d * d + o % d;
    assert o / d < m by {
      if m <= o / d {
        MulOrdered(m, o / d, d);
      }
    }
    assert m * groups == m * d + m;
  }

  // The placement repeats after a period.
  lemma Repeats(count: nat, groups: nat, key: nat)
    requires IsValid(count, groups)
    ensures GetSvrIDByDistributeKey(count, groups, key + Period(count, groups)) == GetSvrIDByDistributeKey(count, groups, key)
    ensures GetCSvrIDByDistributeKey(count, groups, key + Period(count, groups)) == GetCSvrIDByDistributeKey(count, groups, key)
  {
    var k := Period(count, groups);
    DivUnique(k, k, 1, 0);
    AddMultiple(key, k, k);
    assert k == Rounds(count, groups) * count;
    ModOfProduct(Rounds(count, groups), count);
    AddMultiple(key, count, k);
  }

  // ---- roles ----

  const ROLE_INDEX: seq<seq<int>> :=
    [[-1,  0,  1, -1,  2,  3],
     [ 4, -1,  5,  6, -1,  7],
     [ 8,  9, -1, 10, 11, -1],
     [-1, 12, 13, -1, 14, 15],
     [16, -1, 17, 18, -1, 19],
     [20, 21, -1, 22, 23, -1]]

  const ROLE_COUNT := 24

  // Six servers in three groups.
  function GetRoleIndex(sect: nat): (role: int)
    ensures 0 <= role < ROLE_COUNT
  {
    ReplicasAreApart(6, 3, sect);
    var (a, b) := GetSvrIDByDistributeKey(6, 3, sect).value;
    RoleOfPair(a, b);
    ROLE_INDEX[a - 1][b - 1]
  }

  lemma RoleOfPair(a: nat, b: nat)
    requires 1 <= a <= 6 && 1 <= b <= 6
    ensures |ROLE_INDEX| == 6 && |ROLE_INDEX[a - 1]| == 6
    ensures ROLE_INDEX[a - 1][b - 1] == -1 <==> ClassOf(a, 3) == ClassOf(b, 3)
    ensures -1 <= ROLE_INDEX[a - 1][b - 1] < ROLE_COUNT
  {
  }

  // The table gives every pair of servers that can occur a role of its own.
  lemma RolesAreDistinct(a: nat, b: nat, c: nat, d: nat)
    requires 1 <= a <= 6 && 1 <= b <= 6 && 1 <= c <= 6 && 1 <= d <= 6
    requires ClassOf(a, 3) != ClassOf(b, 3) && ROLE_INDEX[a - 1][b - 1] == ROLE_INDEX[c - 1][d - 1]
    ensures a == c && b == d
  {
    RoleOfPair(a, b);
  }

  // So the roles tell the keys of a period apart, and there are as many roles as keys.
  lemma RolesTellKeysApart(sect: nat, sect': nat)
    requires sect < Period(6, 3) && sect' < Period(6, 3) && GetRoleIndex(sect) == GetRoleIndex(sect')
    ensures sect == sect' && Period(6, 3) == ROLE_COUNT
  {
    ReplicasAreApart(6, 3, sect);
    ReplicasAreApart(6, 3, sect');
    var (a, b) := GetSvrIDByDistributeKey(6, 3, sect).value;
    var (c, d) := GetSvrIDByDistributeKey(6, 3, sect').value;
    RolesAreDistinct(a, b, c, d);
    OneKeyEach(6, 3, sect, sect');
  }
}
