/**
 Monthly partitions of the audit log: the helpers that name them and find their bounds,
 and the activities that create next month's partition and detach the ones that are past
 retention. A partition's table outlives its detachment.
 */
module Partitions {
  import opened Wrappers
  import opened Calendar

  // ------------------------------------------------------------------ bounds

  function GetNextMonthStart(from: int): int {
    UtcFirst(Year(from), Month(from) + 1)
  }

  function GetMonthAfterNextStart(from: int): int {
    UtcFirst(Year(from), Month(from) + 2)
  }

  function FirstOfMonth(t: int): int {
    UtcFirst(Year(t), Month(t))
  }

  /** The first of the month `retentionDays` days before `from`, found by moving a copy's day of the month. */
  method GetRetentionCutoff(from: int, retentionDays: nat) returns (r: int)
    ensures r == FirstOfMonth(DaysAgo(from, retentionDays))
  {
    var cutoff := from;
    SetUtcDateGoesBack(from, retentionDays);
    cutoff := SetUtcDate(cutoff, Date(cutoff) - retentionDays);
    r := FirstOfMonth(cutoff);
  }

  lemma SameStartIff(j: int, k: int)
    ensures MonthStart(j) == MonthStart(k) <==> j == k
  {
    if j < k {
      MonthStartsAscend(j, k);
    } else if k < j {
      MonthStartsAscend(k, j);
    }
  }

  /**
   Date.UTC names the month meant, k, exactly when the year is not one of 0 to 99, which it
   takes for 1900 to 1999.
   */
  lemma UtcFirstIff(y: int, m: int, k: int)
    requires k == 12 * y + m
    ensures UtcFirst(y, m) == MonthStart(k) <==> !TwoDigit(y)
  {
    UtcFirstIsMonthStart(y, m);
    SameStartIff(k + if TwoDigit(y) then 12 * 1900 else 0, k);
  }

  /** Date.UTC's two-digit years, in months. */
  function Shift(year: int): int {
    if TwoDigit(year) then 12 * 1900 else 0
  }

  /** The month that `createNextMonthPartition` makes a partition for. */
  function Target(now: int): int {
    MonthOf(now) + 1 + Shift(Year(now))
  }

  lemma UtcFirstShifted(y: int, m: int, k: int)
    requires k == 12 * y + m + Shift(y)
    ensures UtcFirst(y, m) == MonthStart(k)
  {
    UtcFirstIsMonthStart(y, m);
  }

  /** A new partition's bounds are those of one month: the one after the current, but for the years 0 to 99. */
  lemma BoundsAreNextMonth(now: int)
    ensures GetNextMonthStart(now) == MonthStart(Target(now))
    ensures GetMonthAfterNextStart(now) == MonthStart(Target(now) + 1)
    ensures Target(now) == MonthOf(now) + 1 + if 0 <= Year(now) <= 99 then 22_800 else 0
  {
    BoundsByFields(Year(now), Month(now), Target(now));
  }

  lemma BoundsByFields(y: int, m: int, k: int)
    requires k == 12 * y + m + 1 + Shift(y)
    ensures UtcFirst(y, m + 1) == MonthStart(k) && UtcFirst(y, m + 2) == MonthStart(k + 1)
  {
    UtcFirstShifted(y, m + 1, k);
    UtcFirstShifted(y, m + 2, k + 1);
  }

  /** One range ends where another begins exactly when they are for consecutive months. */
  lemma RangesMeetIff(t: int, u: int)
    ensures GetMonthAfterNextStart(t) == GetNextMonthStart(u) <==> Target(u) == Target(t) + 1
  {
    BoundsAreNextMonth(t);
    BoundsAreNextMonth(u);
    SameStartIff(Target(t) + 1, Target(u));
  }

  /**
   The cutoff is the first of the month of the instant it is taken from, and not after that
   instant, exactly when that does not lie in the years 0 to 99.
   */
  lemma FirstOfMonthIff(t: int)
    ensures FirstOfMonth(t) == MonthStart(MonthOf(t)) <==> !TwoDigit(Year(t))
    ensures FirstOfMonth(t) <= t <==> !TwoDigit(Year(t))
  {
    FirstOfMonthShifted(t);
    ShiftedStartIff(t, MonthOf(t), Shift(Year(t)), FirstOfMonth(t));
  }

  lemma FirstOfMonthShifted(t: int)
    ensures FirstOfMonth(t) == MonthStart(MonthOf(t) + Shift(Year(t)))
  {
    FirstByFields(Year(t), Month(t), MonthOf(t));
  }

  lemma FirstByFields(y: int, m: int, k: int)
    requires k == 12 * y + m
    ensures UtcFirst(y, m) == MonthStart(k + Shift(y))
  {
    UtcFirstShifted(y, m, k + Shift(y));
  }

  lemma ShiftedStartIff(t: int, k: int, shift: nat, first: int)
    requires Contains(k, t) && first == MonthStart(k + shift)
    ensures first == MonthStart(k) <==> shift == 0
    ensures first <= t <==> shift == 0
  {
    forall i, j | i <= j ensures MonthStart(i) <= MonthStart(j) {
      NoEarlier(i, j);
    }
    ShiftedIndexIff(MonthStart, t, k, shift);
  }

  lemma ShiftedIndexIff(f: int -> int, t: int, k: int, shift: nat)
    requires forall i, j | i <= j :: f(i) <= f(j)
    requires f(k) <= t < f(k + 1)
    ensures f(k + shift) == f(k) <==> shift == 0
    ensures f(k + shift) <= t <==> shift == 0
  {
    assert shift > 0 ==> f(k + 1) <= f(k + shift);
  }

  lemma NoEarlier(j: int, k: int)
    requires j <= k
    ensures MonthStart(j) <= MonthStart(k)
  {
    if j < k {
      MonthStartsAscend(j, k);
    }
  }

  /** How far back a pass reaches: to the start of the month of the instant so many milliseconds ago. */
  lemma RetentionReaches(reached: int)
    requires !(0 <= Year(reached) <= 99)
    ensures FirstOfMonth(reached) == MonthStart(MonthOf(reached)) <= reached
  {
    FirstOfMonthIff(reached);
  }

  // ------------------------------------------------------------------- names

  function Digit(d: int): char
    requires 0 <= d < 10
  {
    '0' + d as char
  }

  function Decimal(n: int): string
    decreases if n < 0 then -10 * n + 1 else n
  {
    if n < 0 then "-" + Decimal(-n)
    else if n < 10 then [Digit(n)]
    else Decimal(n / 10) + [Digit(n % 10)]
  }

  const PREFIX: string := "audit_logs_"

  /** The name for month k: its year in decimal, and its number from 1 in two digits. */
  function NameOf(k: int): string {
    PREFIX + Decimal(k / 12) + "_" + [Digit((k % 12 + 1) / 10), Digit((k % 12 + 1) % 10)]
  }

  /** `getPartitionName`; the month's number never needs more than the two digits it is padded to. */
  function GetPartitionName(monthStart: int): string {
    var month := Month(monthStart) + 1;
    PREFIX + Decimal(Year(monthStart)) + "_" + (if month < 10 then "0" else "") + Decimal(month)
  }

  predicate IsDigit(c: char) {
    '0' <= c <= '9'
  }

  function Value(c: char): int
    requires IsDigit(c)
  {
    c as int - '0' as int
  }

  predicate Matches(name: string) {
    && |name| == 18 && name[..11] == PREFIX && name[15] == '_'
    && IsDigit(name[11]) && IsDigit(name[12]) && IsDigit(name[13]) && IsDigit(name[14])
    && IsDigit(name[16]) && IsDigit(name[17])
  }

  /** `parsePartitionDate`: four digits and two digits after the prefix; nothing checks that the month is one. */
  function ParsePartitionDate(name: string): Option<int> {
    if !Matches(name) then None
    else
      var year := 1000 * Value(name[11]) + 100 * Value(name[12]) + 10 * Value(name[13]) + Value(name[14]);
      var month := 10 * Value(name[16]) + Value(name[17]) - 1;
      Some(UtcFirst(year, month))
  }

  /** The names that are taken for a month's. */
  lemma ParsesIff(name: string)
    ensures ParsePartitionDate(name).Some? <==>
            && |name| == 18 && name[..11] == "audit_logs_" && name[15] == '_'
            && forall i | 11 <= i < 18 && i != 15 :: '0' <= name[i] <= '9'
  {
  }

  /** The month that such a name is taken for; a month 0, or one from 13 to 99, runs over into another year. */
  lemma ParsedMonth(name: string, year: int, month: int)
    requires ParsePartitionDate(name).Some? && |name| == 18
    requires year == 1000 * (name[11] as int - 48) + 100 * (name[12] as int - 48)
                     + 10 * (name[13] as int - 48) + (name[14] as int - 48)
    requires month == 10 * (name[16] as int - 48) + (name[17] as int - 48)
    ensures ParsePartitionDate(name) ==
            Some(MonthStart(12 * year + month - 1 + if 0 <= year <= 99 then 22_800 else 0))
  {
    UtcFirstIsMonthStart(year, month - 1);
  }

  /** The name of a month in the years 1000 to 9999, character by character. */
  lemma NameByChars(k: int)
    requires 1000 <= k / 12 <= 9999
    ensures var name, y, m := NameOf(k), k / 12, k % 12 + 1;
            && |name| == 18 && name[..11] == "audit_logs_" && name[15] == '_'
            && [name[11] as int, name[12] as int, name[13] as int, name[14] as int, name[16] as int, name[17] as int] ==
               [48 + y / 1000, 48 + y / 100 % 10, 48 + y / 10 % 10, 48 + y % 10, 48 + m / 10, 48 + m % 10]
  {
    var name, year, m := NameOf(k), Decimal(k / 12), k % 12 + 1;
    NameChars(year, m);
    DecimalDigits(k / 12);
    assert name[15..] == "_" + [Digit(m / 10), Digit(m % 10)];
    assert name[15] == name[15..][0] && name[16] == name[15..][1] && name[17] == name[15..][2];
    assert name[11 + 0] == year[0] && name[11 + 1] == year[1] && name[11 + 2] == year[2] && name[11 + 3] == year[3];
  }

  lemma NameOfStart(k: int)
    ensures GetPartitionName(MonthStart(k)) == NameOf(k)
  {
    MonthOfStart(k);
    NameByFields(k, Year(MonthStart(k)), Month(MonthStart(k)) + 1);
  }

  lemma NameByFields(k: int, y: int, m: int)
    requires y == k / 12 && m == k % 12 + 1
    ensures PREFIX + Decimal(y) + "_" + (if m < 10 then "0" else "") + Decimal(m) == NameOf(k)
  {
    MonthText(m);
    var front := PREFIX + Decimal(y) + "_";
    var pad := if m < 10 then "0" else "";
    assert front + pad + Decimal(m) == front + (pad + Decimal(m));
  }

  lemma MonthText(m: int)
    requires 1 <= m <= 12
    ensures (if m < 10 then "0" else "") + Decimal(m) == [Digit(m / 10), Digit(m % 10)]
  {
    if m >= 10 {
      assert Decimal(m) == Decimal(m / 10) + [Digit(m % 10)];
    }
  }

  lemma TwoDigits(n: int)
    requires 10 <= n <= 99
    ensures Decimal(n) == [Digit(n / 10), Digit(n % 10)]
  {
    assert Decimal(n / 10) == [Digit(n / 10)];
  }

  lemma ThreeDigits(n: int)
    requires 100 <= n <= 999
    ensures Decimal(n) == [Digit(n / 10 / 10), Digit(n / 10 % 10), Digit(n % 10)]
  {
    TwoDigits(n / 10);
    assert Decimal(n) == Decimal(n / 10) + [Digit(n % 10)];
  }

  lemma DecimalDigits(n: int)
    requires 1000 <= n <= 9999
    ensures Decimal(n) == [Digit(n / 1000), Digit(n / 100 % 10), Digit(n / 10 % 10), Digit(n % 10)]
  {
    var m := n / 10;
    ThreeDigits(m);
    assert Decimal(n) == Decimal(m) + [Digit(n % 10)];
    assert m / 10 / 10 == n / 1000 && m / 10 == n / 100;
  }

  lemma {:induction false} DecimalLength(n: int)
    requires 0 <= n
    ensures n < 1000 ==> |Decimal(n)| < 4
    ensures n > 9999 ==> |Decimal(n)| > 4
  {
    if n >= 10 {
      assert Decimal(n) == Decimal(n / 10) + [Digit(n % 10)];
      if 9999 < n {
        if n / 10 > 9999 { DecimalLength(n / 10); } else { DecimalDigits(n / 10); }
      } else if n < 1000 {
        assert |Decimal(n / 10)| <= 2 by {
          if n >= 100 { assert Decimal(n / 10) == Decimal(n / 100) + [Digit(n / 10 % 10)]; }
        }
      }
    }
  }

  lemma NameChars(year: string, m: int)
    requires 1 <= m <= 12
    ensures var name := PREFIX + year + "_" + [Digit(m / 10), Digit(m % 10)];
            && |name| == 14 + |year| && name[..11] == PREFIX
            && (forall i | 0 <= i < |year| :: name[11 + i] == year[i])
            && name[11 + |year|..] == "_" + [Digit(m / 10), Digit(m % 10)]
  {
  }

  /** Parsing undoes naming exactly for the years 1000 to 9999; no other name is taken for a monthly one. */
  lemma ParseNameIff(k: int)
    ensures ParsePartitionDate(NameOf(k)) == Some(MonthStart(k)) <==> 1000 <= k / 12 <= 9999
    ensures !(1000 <= k / 12 <= 9999) ==> ParsePartitionDate(NameOf(k)).None?
  {
    var y, m := k / 12, k % 12 + 1;
    NameChars(Decimal(y), m);
    if 1000 <= y <= 9999 {
      ParseName(k);
    } else if y < 0 {
      assert NameOf(k)[11 + 0] == Decimal(y)[0] == '-';
    } else {
      DecimalLength(y);
    }
  }

  lemma ParseName(k: int)
    requires 1000 <= k / 12 <= 9999
    ensures ParsePartitionDate(NameOf(k)) == Some(MonthStart(k))
  {
    var y, m, name := k / 12, k % 12 + 1, NameOf(k);
    var tail := "_" + [Digit(m / 10), Digit(m % 10)];
    NameChars(Decimal(y), m);
    DecimalDigits(y);
    assert name[15..] == tail;
    assert name[15] == tail[0] && name[16] == tail[1] && name[17] == tail[2];
    assert name[11] == Decimal(y)[0] && name[11 + 1] == Decimal(y)[1];
    assert name[11 + 2] == Decimal(y)[2] && name[11 + 3] == Decimal(y)[3];
    ParsedFields(name, y, m);
    SameMonth(k, y, m);
  }

  lemma SameMonth(k: int, y: int, m: int)
    requires y == k / 12 && m == k % 12 + 1 && !TwoDigit(y)
    ensures UtcFirst(y, m - 1) == MonthStart(k)
  {
    UtcFirstIsMonthStart(y, m - 1);
  }

  lemma ParsedFields(name: string, y: int, m: int)
    requires 1000 <= y <= 9999 && 1 <= m <= 12
    requires |name| == 18 && name[..11] == PREFIX && name[15] == '_'
    requires name[11] == Digit(y / 1000) && name[12] == Digit(y / 100 % 10)
    requires name[13] == Digit(y / 10 % 10) && name[14] == Digit(y % 10)
    requires name[16] == Digit(m / 10) && name[17] == Digit(m % 10)
    ensures ParsePartitionDate(name) == Some(UtcFirst(y, m - 1))
  {
    FourDigits(y);
  }

  lemma FourDigits(y: int)
    requires 1000 <= y <= 9999
    ensures 1000 * (y / 1000) + 100 * (y / 100 % 10) + 10 * (y / 10 % 10) + y % 10 == y
  {
    var a, b := y / 10, y / 100;
    assert y == 10 * a + y % 10;
    assert a / 10 == b && a == 10 * b + a % 10;
    assert b / 10 == y / 1000 && b == 10 * (y / 1000) + b % 10;
  }

  // -------------------------------------------------------------- activities

  /** The bounds of a partition, the upper one excluded. */
  datatype Range = Range(from: int, to: int)

  function MonthRange(k: int): Range {
    Range(MonthStart(k), MonthStart(k + 1))
  }

  /** What `enforceRetention` takes for the end of a partition, by its parsed name. */
  function PartitionEnd(partitionDate: int): int {
    UtcFirst(Year(partitionDate), Month(partitionDate) + 1)
  }

  /** A partition named like a month holds the month it is named for. */
  predicate NamedRight(name: string, r: Range) {
    var date := ParsePartitionDate(name);
    date.Some? ==> r == MonthRange(MonthOf(date.value)) && !TwoDigit(Year(date.value))
  }

  lemma EndOf(date: int)
    requires !TwoDigit(Year(date))
    ensures PartitionEnd(date) == MonthRange(MonthOf(date)).to
  {
    UtcFirstIff(Year(date), Month(date) + 1, MonthOf(date) + 1);
  }

  lemma MonthNamedRight(k: int)
    ensures NamedRight(NameOf(k), MonthRange(k))
  {
    ParseNameIff(k);
    MonthOfStart(k);
  }

  /** A partition whose name is a month's and that ends by a given instant. */
  predicate Expired(name: string, r: Range, bound: int) {
    ParsePartitionDate(name).Some? && r.to <= bound
  }

  lemma NextMonthPartition(now: int, k: int)
    requires k == Target(now)
    ensures GetPartitionName(GetNextMonthStart(now)) == NameOf(k)
    ensures Range(GetNextMonthStart(now), GetMonthAfterNextStart(now)) == MonthRange(k)
    ensures NamedRight(NameOf(k), MonthRange(k))
  {
    BoundsAreNextMonth(now);
    MonthPartition(k, GetNextMonthStart(now), GetMonthAfterNextStart(now));
  }

  lemma MonthPartition(k: int, from: int, to: int)
    requires from == MonthStart(k) && to == MonthStart(k + 1)
    ensures GetPartitionName(from) == NameOf(k) && Range(from, to) == MonthRange(k)
    ensures NamedRight(NameOf(k), MonthRange(k))
  {
    NameOfStart(k);
    MonthNamedRight(k);
  }

  /** The partitions by name, attached and detached. */
  datatype Tables = Tables(attached: map<string, Range>, detached: map<string, Range>)

  /** The partition of month k is created, unless a table of its name exists, attached or not. */
  function Attach(c: Tables, k: int): Tables {
    if NameOf(k) in c.attached || NameOf(k) in c.detached then c
    else c.(attached := c.attached[NameOf(k) := MonthRange(k)])
  }

  /** Detaches the monthly partitions that end by the cutoff. */
  function DetachBy(c: Tables, cutoff: int): Tables {
    var past := map name | name in c.attached && Expired(name, c.attached[name], cutoff) :: c.attached[name];
    Tables(c.attached - past.Keys, c.detached + past)
  }

  /** What one pass leaves attached: all but the monthly ones that end by the start of the month it reaches back to. */
  lemma PassKeeps(c: Tables, now: int, retentionDays: nat, reached: int, name: string)
    requires reached == now - retentionDays * 86_400_000 && !(0 <= Year(reached) <= 99)
    ensures name in DetachBy(c, FirstOfMonth(DaysAgo(now, retentionDays))).attached <==>
            && name in c.attached
            && !(ParsePartitionDate(name).Some? && c.attached[name].to <= MonthStart(MonthOf(reached)))
  {
    assert DaysAgo(now, retentionDays) == reached;
    RetentionReaches(reached);
  }

  predicate Distinct(names: seq<string>) {
    forall i, j | 0 <= i < j < |names| :: names[i] != names[j]
  }

  function Names(names: seq<string>): set<string> {
    set name | name in names
  }

  function Only(m: map<string, Range>, names: set<string>): map<string, Range> {
    map name | name in m && name in names :: m[name]
  }

  lemma DetachOne(all: map<string, Range>, kept: map<string, Range>, names: seq<string>, name: string)
    requires name in all && name !in names
    ensures all - Names(names) - {name} == all - Names(names + [name])
    ensures (kept + Only(all, Names(names)))[name := all[name]] == kept + Only(all, Names(names + [name]))
    ensures Distinct(names) ==> Distinct(names + [name])
  {
    assert Names(names + [name]) == Names(names) + {name};
  }

  lemma DetachedAll(c: Tables, names: seq<string>, cutoff: int)
    requires forall name :: name in names <==> name in c.attached && Expired(name, c.attached[name], cutoff)
    ensures DetachBy(c, cutoff) == Tables(c.attached - Names(names), c.detached + Only(c.attached, Names(names)))
  {
    var past := map name | name in c.attached && Expired(name, c.attached[name], cutoff) :: c.attached[name];
    assert past == Only(c.attached, Names(names));
    assert c.attached - past.Keys == c.attached - Names(names);
  }

  class Catalog {
    var attached: map<string, Range>
    var detached: map<string, Range>

    function Model(): Tables
      reads this
    {
      Tables(attached, detached)
    }

    predicate Valid()
      reads this
    {
      attached.Keys !! detached.Keys && forall name | name in attached :: NamedRight(name, attached[name])
    }

    constructor ()
      ensures Valid() && Model() == Tables(map[], map[])
    {
      attached, detached := map[], map[];
    }

    /** CREATE TABLE IF NOT EXISTS ... PARTITION OF; k is the month that the name and the range are of. */
    method CreateIfNotExists(name: string, range: Range, ghost k: int)
      requires Valid() && name == NameOf(k) && range == MonthRange(k) && NamedRight(name, range)
      modifies `attached
      ensures Valid() && Model() == Attach(old(Model()), k)
    {
      if name !in attached && name !in detached {
        attached := attached[name := range];
      }
    }

    method CreateNextMonthPartition(now: int) returns (partitionName: string)
      requires Valid()
      modifies `attached
      ensures Valid() && partitionName == NameOf(Target(now)) && Model() == Attach(old(Model()), Target(now))
    {
      var nextMonth := GetNextMonthStart(now);
      var monthAfter := GetMonthAfterNextStart(now);
      partitionName := GetPartitionName(nextMonth);
      NextMonthPartition(now, Target(now));
      CreateIfNotExists(partitionName, Range(nextMonth, monthAfter), Target(now));
    }

    /** The loop body's test, as `PartitionEnd` of the parsed name. */
    method IsPast(name: string, cutoff: int) returns (past: bool)
      requires Valid() && name in attached
      ensures past <==> Expired(name, attached[name], cutoff)
    {
      var partitionDate := ParsePartitionDate(name);
      if partitionDate.None? {
        return false;
      }
      assert NamedRight(name, attached[name]);
      EndOf(partitionDate.value);
      return PartitionEnd(partitionDate.value) <= cutoff;
    }

    method Detach(name: string)
      requires Valid() && name in attached
      modifies `attached, `detached
      ensures Valid() && attached == old(attached) - {name} && detached == old(detached)[name := old(attached)[name]]
    {
      detached := detached[name := attached[name]];
      attached := attached - {name};
    }

    /** One pass over the partitions with a given cutoff. */
    method DetachPast(cutoff: int) returns (names: seq<string>)
      requires Valid()
      modifies `attached, `detached
      ensures Valid() && Distinct(names)
      ensures forall name :: name in names <==> name in old(attached) && Expired(name, old(attached)[name], cutoff)
      ensures Model() == DetachBy(old(Model()), cutoff)
    {
      names := [];
      ghost var all, kept := attached, detached;
      var left := attached.Keys;
      while left != {}
        invariant left <= attached.Keys && Valid() && Distinct(names)
        invariant forall name :: name in names <==> name in all && name !in left && Expired(name, all[name], cutoff)
        invariant attached == all - Names(names)
        invariant detached == kept + Only(all, Names(names))
      {
        var name :| name in left;
        left := left - {name};
        var past := IsPast(name, cutoff);
        if past {
          Detach(name);
          DetachOne(all, kept, names, name);
          names := names + [name];
        }
      }
      DetachedAll(Tables(all, kept), names, cutoff);
    }

    /**
     Detaches precisely the monthly partitions that end by the first of the month that
     contains the instant `retentionDays` days ago. That nothing from that instant on is in
     a partition detached here holds when its year is not one of 0 to 99, see FirstOfMonthIff.
     */
    method EnforceRetention(now: int, retentionDays: nat) returns (names: seq<string>)
      requires Valid()
      modifies `attached, `detached
      ensures Valid() && Distinct(names)
      ensures var cutoff := FirstOfMonth(DaysAgo(now, retentionDays));
              forall name :: name in names <==> name in old(attached) && Expired(name, old(attached)[name], cutoff)
      ensures !TwoDigit(Year(DaysAgo(now, retentionDays))) ==>
                forall name | name in names :: old(attached)[name].to <= DaysAgo(now, retentionDays)
      ensures Model() == DetachBy(old(Model()), FirstOfMonth(DaysAgo(now, retentionDays)))
    {
      FirstOfMonthIff(DaysAgo(now, retentionDays));
      var cutoff := GetRetentionCutoff(now, retentionDays);
      names := DetachPast(cutoff);
    }

    method VerifyPartitionHealth(expectedPartition: string) returns (found: bool)
      ensures found <==> expectedPartition in attached
    {
      found := expectedPartition in attached;
    }

    /**
     The workflow: its activities read the clock one after the other. It reports the log
     healthy exactly when no table of next month's name had been detached before, and the
     retention just enforced does not reach next month.
     */
    method AuditPartitionManagement(created: int, enforced: int, retentionDays: nat)
      returns (partitionCreated: string, partitionsDetached: seq<string>, healthy: bool)
      requires Valid()
      modifies this
      ensures Valid() && partitionCreated == NameOf(Target(created))
      ensures var cutoff := FirstOfMonth(DaysAgo(enforced, retentionDays));
              Model() == DetachBy(Attach(old(Model()), Target(created)), cutoff)
      ensures healthy <==>
                && NameOf(Target(created)) !in old(detached)
                && !Expires(Target(created), FirstOfMonth(DaysAgo(enforced, retentionDays)))
    {
      partitionCreated := CreateNextMonthPartition(created);
      ghost var between := Model();
      partitionsDetached := EnforceRetention(enforced, retentionDays);
      healthy := VerifyPartitionHealth(partitionCreated);
      HealthyIff(old(Model()), between, Target(created), FirstOfMonth(DaysAgo(enforced, retentionDays)));
    }
  }

  /** The partition of month k ends by the cutoff, and its name says so. */
  predicate Expires(k: int, cutoff: int) {
    1000 <= k / 12 <= 9999 && MonthStart(k + 1) <= cutoff
  }

  lemma ExpiresIff(k: int, cutoff: int)
    ensures Expired(NameOf(k), MonthRange(k), cutoff) <==> Expires(k, cutoff)
  {
    ParseNameIff(k);
  }

  lemma HealthyIff(was: Tables, between: Tables, k: int, cutoff: int)
    requires between == Attach(was, k) && was.attached.Keys !! was.detached.Keys
    requires NameOf(k) in between.attached ==> NamedRight(NameOf(k), between.attached[NameOf(k)])
    ensures NameOf(k) in DetachBy(between, cutoff).attached <==> NameOf(k) !in was.detached && !Expires(k, cutoff)
  {
    ExpiresIff(k, cutoff);
    ParseNameIff(k);
    if 1000 <= k / 12 <= 9999 {
      MonthOfStart(k);
    }
  }

  // -------------------------------------------------------- names tell months apart

  lemma {:induction false} DecimalInjective(a: int, b: int)
    requires Decimal(a) == Decimal(b)
    ensures a == b
    decreases if a < 0 then -10 * a + 1 else a
  {
    Digits(a);
    Digits(b);
    if a < 0 {
      assert Decimal(a)[0] == '-' && b < 0;
      assert Decimal(a)[1..] == Decimal(-a) && Decimal(b)[1..] == Decimal(-b);
      DecimalInjective(-a, -b);
    } else if a >= 10 {
      assert |Decimal(a)| > 1 && b >= 10;
      LastDigit(a);
      LastDigit(b);
      DecimalInjective(a / 10, b / 10);
    }
  }

  /** The first character tells negative numbers, and the length those of one digit. */
  lemma {:induction false} Digits(n: int)
    ensures Decimal(n) != [] && (Decimal(n)[0] == '-' <==> n < 0)
    ensures n >= 10 ==> |Decimal(n)| > 1
    ensures 0 <= n < 10 ==> |Decimal(n)| == 1
    decreases if n < 0 then -10 * n + 1 else n
  {
    if n >= 10 {
      Digits(n / 10);
    }
  }

  lemma LastDigit(n: int)
    requires n >= 10
    ensures Decimal(n)[|Decimal(n)| - 1] == Digit(n % 10) && Decimal(n)[..|Decimal(n)| - 1] == Decimal(n / 10)
  {
  }

  lemma NameOfInjective(j: int, k: int)
    requires NameOf(j) == NameOf(k)
    ensures j == k
  {
    NameParts(j);
    NameParts(k);
    DecimalInjective(j / 12, k / 12);
    TwoDigitsInjective(j % 12 + 1, k % 12 + 1);
  }

  lemma NameParts(k: int)
    ensures |NameOf(k)| >= 14
    ensures NameOf(k)[11..|NameOf(k)| - 3] == Decimal(k / 12)
    ensures NameOf(k)[|NameOf(k)| - 2..] == [Digit((k % 12 + 1) / 10), Digit((k % 12 + 1) % 10)]
  {
    var year, tail := Decimal(k / 12), [Digit((k % 12 + 1) / 10), Digit((k % 12 + 1) % 10)];
    assert NameOf(k) == PREFIX + year + "_" + tail;
    NameChars(year, k % 12 + 1);
  }

  lemma TwoDigitsInjective(a: int, b: int)
    requires 1 <= a <= 12 && 1 <= b <= 12
    requires [Digit(a / 10), Digit(a % 10)] == [Digit(b / 10), Digit(b % 10)]
    ensures a == b
  {
    assert [Digit(a / 10), Digit(a % 10)][0] == Digit(b / 10);
    assert [Digit(a / 10), Digit(a % 10)][1] == Digit(b % 10);
  }

  // -------------------------------------------------------------- whole runs

  /** What an activity does to the partitions, with the clock read. */
  datatype Effect = Creates(k: int) | Cuts(cutoff: int)

  datatype Activity = CreateAt(now: int) | EnforceAt(now: int, retentionDays: nat)

  function EffectOf(a: Activity): Effect {
    match a
    case CreateAt(now) => Creates(Target(now))
    case EnforceAt(now, retentionDays) => Cuts(FirstOfMonth(DaysAgo(now, retentionDays)))
  }

  /** The partitions after the first n effects, from an empty log. */
  function Performed(effects: seq<Effect>, n: nat): Tables
    requires n <= |effects|
  {
    if n == 0 then Tables(map[], map[])
    else
      match effects[n - 1]
      case Creates(k) => Attach(Performed(effects, n - 1), k)
      case Cuts(cutoff) => DetachBy(Performed(effects, n - 1), cutoff)
  }

  ghost predicate IsMonth(name: string, r: Range) {
    exists k :: name == NameOf(k) && r == MonthRange(k)
  }

  /** Every table is named for the month it holds. */
  ghost predicate Monthly(c: Tables) {
    && (forall name | name in c.attached :: IsMonth(name, c.attached[name]))
    && forall name | name in c.detached :: IsMonth(name, c.detached[name])
  }

  predicate CreatesAt(effects: seq<Effect>, i: nat, k: int)
    requires i < |effects|
  {
    effects[i] == Creates(k)
  }

  predicate CutsAt(effects: seq<Effect>, i: nat, k: int)
    requires i < |effects|
  {
    effects[i].Cuts? && Expires(k, effects[i].cutoff)
  }

  /** The partition of month k was created among the first n effects. */
  ghost predicate Created(effects: seq<Effect>, n: nat, k: int)
    requires n <= |effects|
  {
    exists i: nat :: i < n && CreatesAt(effects, i, k)
  }

  /** And a later one of them detached it. */
  ghost predicate Removed(effects: seq<Effect>, n: nat, k: int)
    requires n <= |effects|
  {
    exists i: nat, j: nat :: i < j < n && CreatesAt(effects, i, k) && CutsAt(effects, j, k)
  }

  lemma {:induction false} AlwaysMonthly(effects: seq<Effect>, n: nat)
    requires n <= |effects|
    ensures Monthly(Performed(effects, n))
  {
    if n > 0 {
      AlwaysMonthly(effects, n - 1);
      if effects[n - 1].Creates? {
        assert IsMonth(NameOf(effects[n - 1].k), MonthRange(effects[n - 1].k));
      }
    }
  }

  lemma AttachIff(c: Tables, j: int, k: int)
    requires Monthly(c)
    ensures var c' := Attach(c, j);
            && (NameOf(k) in c'.attached <==>
                  NameOf(k) in c.attached || (j == k && NameOf(k) !in c.detached))
            && c'.detached == c.detached
  {
    if NameOf(j) == NameOf(k) {
      NameOfInjective(j, k);
    }
  }

  lemma OfItsMonth(c: Tables, k: int)
    requires Monthly(c) && NameOf(k) in c.attached
    ensures c.attached[NameOf(k)] == MonthRange(k)
  {
    assert IsMonth(NameOf(k), c.attached[NameOf(k)]);
    var j :| NameOf(k) == NameOf(j) && c.attached[NameOf(k)] == MonthRange(j);
    NameOfInjective(j, k);
  }

  lemma DetachIff(c: Tables, cutoff: int, k: int)
    requires Monthly(c)
    ensures var c' := DetachBy(c, cutoff);
            && (NameOf(k) in c'.attached <==> NameOf(k) in c.attached && !Expires(k, cutoff))
            && (NameOf(k) in c'.detached <==>
                  NameOf(k) in c.detached || (NameOf(k) in c.attached && Expires(k, cutoff)))
  {
    if NameOf(k) in c.attached {
      OfItsMonth(c, k);
      ExpiresIff(k, cutoff);
    }
  }

  lemma CreatedMore(effects: seq<Effect>, n: nat, k: int)
    requires n < |effects|
    ensures Created(effects, n + 1, k) <==> Created(effects, n, k) || CreatesAt(effects, n, k)
    ensures Removed(effects, n + 1, k) <==> Removed(effects, n, k) || (Created(effects, n, k) && CutsAt(effects, n, k))
  {
    if i: nat, j: nat :| i < j < n + 1 && CreatesAt(effects, i, k) && CutsAt(effects, j, k) {
      assert j == n || Removed(effects, n, k);
    }
  }

  /** The partition of a month is attached exactly when it was created and not detached since. */
  lemma {:induction false} AttachedIff(effects: seq<Effect>, n: nat, k: int)
    requires n <= |effects|
    ensures NameOf(k) in Performed(effects, n).attached <==> Created(effects, n, k) && !Removed(effects, n, k)
    ensures NameOf(k) in Performed(effects, n).detached <==> Removed(effects, n, k)
  {
    if n > 0 {
      AttachedIff(effects, n - 1, k);
      AlwaysMonthly(effects, n - 1);
      CreatedMore(effects, n - 1, k);
      var c := Performed(effects, n - 1);
      match effects[n - 1]
      case Creates(j) => AttachIff(c, j, k);
      case Cuts(cutoff) => DetachIff(c, cutoff, k);
    }
  }

  /** The attached partition of this name holds the instant t. */
  predicate Covers(c: Tables, name: string, t: int) {
    name in c.attached && c.attached[name].from <= t < c.attached[name].to
  }

  /** Exactly one attached partition holds t. */
  ghost predicate CoveredOnce(c: Tables, t: int) {
    exists name :: Covers(c, name, t) && forall other | Covers(c, other, t) :: other == name
  }

  lemma CoversIff(c: Tables, name: string, t: int, k: int)
    requires Monthly(c) && Contains(k, t)
    ensures Covers(c, name, t) <==> name in c.attached && name == NameOf(k)
  {
    if name in c.attached {
      assert IsMonth(name, c.attached[name]);
      var j :| name == NameOf(j) && c.attached[name] == MonthRange(j);
      TileAt(t, k, j);
      if NameOf(j) == NameOf(k) { NameOfInjective(j, k); }
    }
  }

  /**
   Over every run of creations and retention passes: no instant lies in two attached
   partitions, and one lies in exactly one precisely when the partition of its month was
   created and no later pass had a cutoff at or after that month's end.
   */
  lemma CoveredIff(effects: seq<Effect>, t: int, k: int)
    requires Contains(k, t)
    ensures var c, n := Performed(effects, |effects|), |effects|;
            && (CoveredOnce(c, t) <==> Created(effects, n, k) && !Removed(effects, n, k))
            && (CoveredOnce(c, t) || forall name :: !Covers(c, name, t))
  {
    var c, n := Performed(effects, |effects|), |effects|;
    AlwaysMonthly(effects, n);
    AttachedIff(effects, n, k);
    forall name ensures Covers(c, name, t) <==> name in c.attached && name == NameOf(k) {
      CoversIff(c, name, t, k);
    }
    if NameOf(k) in c.attached {
      assert Covers(c, NameOf(k), t);
    }
  }

  function Effects(activities: seq<Activity>): seq<Effect> {
    seq(|activities|, i requires 0 <= i < |activities| => EffectOf(activities[i]))
  }

  /** `createNextMonthPartition` ran during month j. */
  ghost predicate RanIn(activities: seq<Activity>, j: int) {
    exists i :: 0 <= i < |activities| && IsCreationIn(activities[i], j)
  }

  predicate IsCreationIn(a: Activity, j: int) {
    a.CreateAt? && MonthOf(a.now) == j && !TwoDigit(Year(a.now))
  }

  /** A retention pass that keeps everything from t on. */
  predicate Keeps(a: Activity, t: int) {
    a.EnforceAt? ==> DaysAgo(a.now, a.retentionDays) <= t && !TwoDigit(Year(DaysAgo(a.now, a.retentionDays)))
  }

  lemma CreationEffect(a: Activity, j: int)
    requires IsCreationIn(a, j)
    ensures EffectOf(a) == Creates(j + 1)
  {
  }

  lemma KeepsEffect(a: Activity, t: int, k: int)
    requires Keeps(a, t) && Contains(k, t)
    ensures EffectOf(a).Cuts? ==> !Expires(k, EffectOf(a).cutoff)
  {
    if a.EnforceAt? {
      FirstOfMonthIff(DaysAgo(a.now, a.retentionDays));
    }
  }

  /**
   The partitions tile time: when the creation ran at least once in each of the months a to
   b, every instant of the months a + 1 to b + 1 lies in exactly one attached partition, as
   long as it is inside the retention window of every pass.
   */
  lemma MonthsAreCovered(activities: seq<Activity>, a: int, b: int, t: int)
    requires forall j | a <= j <= b :: RanIn(activities, j)
    requires MonthStart(a + 1) <= t < MonthStart(b + 2)
    requires forall i | 0 <= i < |activities| :: Keeps(activities[i], t)
    ensures CoveredOnce(Performed(Effects(activities), |activities|), t)
  {
    var k := MonthOf(t);
    MonthBetween(t, k, a + 1, b + 1);
    RanEffect(activities, k);
    KeptEffects(activities, t, k);
    CoveredIff(Effects(activities), t, k);
  }

  lemma RanEffect(activities: seq<Activity>, k: int)
    requires RanIn(activities, k - 1)
    ensures Created(Effects(activities), |activities|, k)
  {
    var i :| 0 <= i < |activities| && IsCreationIn(activities[i], k - 1);
    CreationEffect(activities[i], k - 1);
    EffectsAt(activities, i, Creates(k));
    assert CreatesAt(Effects(activities), i, k);
  }

  lemma EffectsAt(activities: seq<Activity>, i: nat, e: Effect)
    requires i < |activities| && e == EffectOf(activities[i])
    ensures Effects(activities)[i] == e
  {
  }

  lemma KeptEffects(activities: seq<Activity>, t: int, k: int)
    requires Contains(k, t) && forall i | 0 <= i < |activities| :: Keeps(activities[i], t)
    ensures !Removed(Effects(activities), |activities|, k)
  {
    forall j: nat | j < |activities| ensures !CutsAt(Effects(activities), j, k) {
      KeepsEffect(activities[j], t, k);
    }
  }

  lemma MonthBetween(t: int, k: int, a: int, b: int)
    requires Contains(k, t) && MonthStart(a) <= t < MonthStart(b + 1)
    ensures a <= k <= b
  {
    forall i, j | i <= j ensures MonthStart(i) <= MonthStart(j) {
      NoEarlier(i, j);
    }
    IndexBetween(MonthStart, t, k, a, b);
  }

  lemma IndexBetween(f: int -> int, t: int, k: int, a: int, b: int)
    requires forall i, j | i <= j :: f(i) <= f(j)
    requires f(k) <= t < f(k + 1) && f(a) <= t < f(b + 1)
    ensures a <= k <= b
  {
  }
}
