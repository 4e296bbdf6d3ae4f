/** The episode ledger: entries, the planning cursor, sources, and the ordering of entries by
    number (lib/episode_ledger.py, lib/episode_planner.py). */
module Ledger {
  import opened Wrappers

  // ---------------------------------------------------------------- entries

  datatype Status = Planned | Consumed | Stale | Unanchored | Unknown

  /** The `episode` field as it may come out of project.json. */
  datatype RawNum = Int(n: int) | Str(s: string) | Bool(b: bool) | Other

  /** A `source_range` that is absent or no object, or an object whose fields may be missing or
      of the wrong type. */
  datatype RawRange = NoRange | RawRange(file: Option<string>, start: Option<int>, end: Option<int>)

  /** `scripts/episode_{n}.json`, or any other path. */
  datatype Script = Canonical(n: int) | Path(path: string)

  datatype Entry = Entry(
    raw: RawNum, title: string, hook: string, script: Option<Script>, range: RawRange, status: Option<Status>)

  /** An element of the `episodes` list: an entry, or something that is no object. */
  datatype Item = Item(entry: Entry) | Foreign(isNull: bool)

  /** The `planning_cursor` field; a non-null value may still have unusable parts. */
  datatype RawCursor = Null | RawCursor(file: Option<string>, offset: Option<int>)

  datatype Project = Project(items: seq<Item>, cursor: RawCursor, windowChars: nat, maxEpisodes: nat)

  function Full(file: string, start: int, end: int): RawRange {
    RawRange(Some(file), Some(start), Some(end))
  }

  predicate IsDigits(s: string) {
    s != "" && forall i :: 0 <= i < |s| ==> '0' <= s[i] <= '9'
  }

  function DigitsValue(s: string): nat
    requires forall i :: 0 <= i < |s| ==> '0' <= s[i] <= '9'
  {
    if s == "" then 0 else 10 * DigitsValue(s[..|s| - 1]) + (s[|s| - 1] as int - '0' as int)
  }

  /** `parse_episode_num`: integers (not booleans) and strings of digits. */
  function ParseNum(raw: RawNum): Option<int> {
    match raw
    case Int(n) => Some(n)
    case Str(s) => if IsDigits(s) then Some(DigitsValue(s)) else None
    case _ => None
  }

  function NumOf(item: Item): Option<int> {
    if item.Item? then ParseNum(item.entry.raw) else None
  }

  /** How a number is written. */
  function Digits(n: nat): string {
    if n < 10 then [DigitChar(n)] else Digits(n / 10) + [DigitChar(n % 10)]
  }

  function DigitChar(d: nat): char
    requires d < 10
  {
    "0123456789"[d]
  }

  /** A number is read back from its digits; a truth value and anything else that is no number and no
      string of digits is none. */
  lemma {:induction false} DigitsParse(n: nat)
    ensures IsDigits(Digits(n)) && DigitsValue(Digits(n)) == n
    ensures ParseNum(Str(Digits(n))) == Some(n as int) == ParseNum(Int(n))
    ensures ParseNum(Bool(n == 1)) == None == ParseNum(RawNum.Other) && ParseNum(Str("")) == None
  {
    if n >= 10 {
      DigitsParse(n / 10);
      var s := Digits(n);
      assert s[..|s| - 1] == Digits(n / 10);
    }
  }

  predicate Has(items: seq<Item>, num: int) {
    exists i :: 0 <= i < |items| && NumOf(items[i]) == Some(num)
  }

  /** The first entry with a number: the one `by_num` keeps. */
  function First(items: seq<Item>, num: int): (i: nat)
    requires Has(items, num)
    ensures i < |items| && NumOf(items[i]) == Some(num)
    ensures forall j :: 0 <= j < i ==> NumOf(items[j]) != Some(num)
  {
    if NumOf(items[0]) == Some(num) then 0 else 1 + First(items[1..], num)
  }

  lemma FirstIs(items: seq<Item>, num: int, i: nat)
    requires i < |items| && NumOf(items[i]) == Some(num)
    requires forall j :: 0 <= j < i ==> NumOf(items[j]) != Some(num)
    ensures Has(items, num) && First(items, num) == i
  {
  }

  // ---------------------------------------------------------------- ordering

  predicate AllReadable(items: seq<Item>) {
    forall i :: 0 <= i < |items| ==> NumOf(items[i]).Some?
  }

  predicate Sorted(items: seq<Item>)
    requires AllReadable(items)
  {
    forall i, j :: 0 <= i < j < |items| ==> NumOf(items[i]).value <= NumOf(items[j]).value
  }

  /** Puts an item after every item whose number is not greater. */
  function Insert(items: seq<Item>, item: Item): seq<Item>
    requires AllReadable(items) && NumOf(item).Some?
  {
    if items == [] || NumOf(items[|items| - 1]).value <= NumOf(item).value then items + [item]
    else Insert(items[..|items| - 1], item) + [items[|items| - 1]]
  }

  /** The stable sort by number. */
  function Sort(items: seq<Item>): (r: seq<Item>)
    requires AllReadable(items)
    ensures AllReadable(r)
  {
    if items == [] then []
    else
      InsertReadable(Sort(items[..|items| - 1]), items[|items| - 1]);
      Insert(Sort(items[..|items| - 1]), items[|items| - 1])
  }

  function SortIfPossible(items: seq<Item>): seq<Item> {
    if AllReadable(items) then Sort(items) else items
  }

  lemma {:induction false} InsertReadable(items: seq<Item>, item: Item)
    requires AllReadable(items) && NumOf(item).Some?
    ensures AllReadable(Insert(items, item))
    ensures |Insert(items, item)| == |items| + 1
  {
    if items != [] && NumOf(items[|items| - 1]).value > NumOf(item).value {
      InsertReadable(items[..|items| - 1], item);
    }
  }

  lemma {:induction false} InsertMembers(items: seq<Item>, item: Item)
    requires AllReadable(items) && NumOf(item).Some?
    ensures multiset(Insert(items, item)) == multiset(items) + multiset{item}
  {
    if items != [] && NumOf(items[|items| - 1]).value > NumOf(item).value {
      var butLast, last := items[..|items| - 1], items[|items| - 1];
      InsertMembers(butLast, item);
      assert items == butLast + [last];
    }
  }

  lemma {:induction false} InsertSorted(items: seq<Item>, item: Item)
    requires AllReadable(items) && NumOf(item).Some? && Sorted(items)
    ensures AllReadable(Insert(items, item)) && Sorted(Insert(items, item))
  {
    InsertReadable(items, item);
    if items != [] && NumOf(items[|items| - 1]).value > NumOf(item).value {
      var butLast, last := items[..|items| - 1], items[|items| - 1];
      InsertSorted(butLast, item);
      InsertMembers(butLast, item);
      var r := Insert(butLast, item);
      forall i | 0 <= i < |r|
        ensures NumOf(r[i]).value <= NumOf(last).value
      {
        assert r[i] in multiset(r);
        assert r[i] in multiset(butLast) || r[i] == item;
        if r[i] in multiset(butLast) {
          var j :| 0 <= j < |butLast| && butLast[j] == r[i];
          assert items[j] == r[i];
        }
      }
    }
  }

  /** Sorting yields a sorted arrangement of the same items... */
  lemma {:induction false} SortSorts(items: seq<Item>)
    requires AllReadable(items)
    ensures Sorted(Sort(items)) && multiset(Sort(items)) == multiset(items)
  {
    if items != [] {
      var butLast, last := items[..|items| - 1], items[|items| - 1];
      SortSorts(butLast);
      InsertSorted(Sort(butLast), last);
      InsertMembers(Sort(butLast), last);
      assert items == butLast + [last];
    }
  }

  /** ... and leaves a sorted list as it is. */
  lemma {:induction false} SortOfSorted(items: seq<Item>)
    requires AllReadable(items) && Sorted(items)
    ensures Sort(items) == items
  {
    hide NumOf;
    if items != [] {
      var butLast, last := items[..|items| - 1], items[|items| - 1];
      SortOfSorted(butLast);
      assert items == butLast + [last];
      if butLast != [] { assert butLast[|butLast| - 1] == items[|items| - 2]; }
    }
  }

  lemma {:induction false} InsertKeepsFirst(items: seq<Item>, item: Item, num: int)
    requires AllReadable(items) && NumOf(item).Some? && Sorted(items)
    ensures Has(Insert(items, item), num) <==> Has(items, num) || NumOf(item) == Some(num)
    ensures Has(items, num) ==>
      Insert(items, item)[First(Insert(items, item), num)] == items[First(items, num)]
    ensures !Has(items, num) && NumOf(item) == Some(num) ==>
      Insert(items, item)[First(Insert(items, item), num)] == item
  {
    var r := Insert(items, item);
    InsertReadable(items, item);
    if items == [] || NumOf(items[|items| - 1]).value <= NumOf(item).value {
      if Has(items, num) {
        FirstIs(r, num, First(items, num));
      } else if NumOf(item) == Some(num) {
        FirstIs(r, num, |items|);
      }
    } else {
      var butLast, last := items[..|items| - 1], items[|items| - 1];
      InsertKeepsFirst(butLast, item, num);
      var r' := Insert(butLast, item);
      assert r == r' + [last] && items == butLast + [last];
      hide Has, First, Insert, Sorted, NumOf;
      HasAppend(butLast, last, num);
      HasAppend(r', last, num);
    }
  }

  lemma HasAppend(items: seq<Item>, last: Item, num: int)
    ensures Has(items + [last], num) <==> Has(items, num) || NumOf(last) == Some(num)
    ensures Has(items, num) ==> First(items + [last], num) == First(items, num)
    ensures !Has(items, num) && NumOf(last) == Some(num) ==> First(items + [last], num) == |items|
  {
    var all := items + [last];
    if Has(items, num) {
      FirstIs(all, num, First(items, num));
    } else if NumOf(last) == Some(num) {
      assert all[|items|] == last;
      FirstIs(all, num, |items|);
    }
  }

  /** The entries with one number, in list order. */
  function WithNum(items: seq<Item>, num: int): seq<Item> {
    if items == [] then []
    else
      WithNum(items[..|items| - 1], num)
      + if NumOf(items[|items| - 1]) == Some(num) then [items[|items| - 1]] else []
  }

  lemma WithNumAppend(items: seq<Item>, last: Item, num: int)
    ensures WithNum(items + [last], num) == WithNum(items, num) + if NumOf(last) == Some(num) then [last] else []
  {
    assert (items + [last])[..|items|] == items;
  }

  lemma {:induction false} InsertBefore(items: seq<Item>, item: Item)
    requires AllReadable(items) && NumOf(item).Some?
    requires items != [] && NumOf(items[|items| - 1]).value > NumOf(item).value
    ensures AllReadable(items[..|items| - 1])
    ensures Insert(items, item) == Insert(items[..|items| - 1], item) + [items[|items| - 1]]
    ensures items == items[..|items| - 1] + [items[|items| - 1]]
  {
    hide NumOf;
  }

  lemma {:induction false} InsertIsStable(items: seq<Item>, item: Item, num: int)
    requires AllReadable(items) && NumOf(item).Some?
    ensures WithNum(Insert(items, item), num) == WithNum(items, num) + if NumOf(item) == Some(num) then [item] else []
  {
    if items == [] || NumOf(items[|items| - 1]).value <= NumOf(item).value {
      WithNumAppend(items, item, num);
    } else {
      var butLast, last := items[..|items| - 1], items[|items| - 1];
      InsertBefore(items, item);
      hide Insert, WithNum, AllReadable;
      InsertIsStable(butLast, item, num);
      assert NumOf(last) != NumOf(item);
      hide NumOf;
      WithNumAppend(butLast, last, num);
      WithNumAppend(Insert(butLast, item), last, num);
    }
  }

  /** Sorting is stable: the entries with one number keep their order among themselves. */
  lemma {:induction false} SortIsStable(items: seq<Item>, num: int)
    requires AllReadable(items)
    ensures WithNum(Sort(items), num) == WithNum(items, num)
  {
    if items != [] {
      var butLast, last := items[..|items| - 1], items[|items| - 1];
      SortIsStable(butLast, num);
      InsertIsStable(Sort(butLast), last, num);
      WithNumAppend(Sort(butLast), last, num);
      WithNumAppend(butLast, last, num);
      assert items == butLast + [last];
    }
  }

  /** The first entry with a number stays the first with it, and so the one `by_num` keeps. */
  lemma {:induction false} SortKeepsFirst(items: seq<Item>, num: int)
    requires AllReadable(items)
    ensures Has(Sort(items), num) <==> Has(items, num)
    ensures Has(items, num) ==> Sort(items)[First(Sort(items), num)] == items[First(items, num)]
  {
    if items != [] {
      var butLast, last := items[..|items| - 1], items[|items| - 1];
      assert items == butLast + [last];
      var sorted := Sort(butLast);
      assert Sort(items) == Insert(sorted, last);
      hide Has, First, Insert, Sort, NumOf;
      SortKeepsFirst(butLast, num);
      SortSorts(butLast);
      InsertKeepsFirst(sorted, last, num);
      HasAppend(butLast, last, num);
    }
  }

  lemma SortIfPossibleKeepsFirst(items: seq<Item>, num: int)
    ensures Has(SortIfPossible(items), num) <==> Has(items, num)
    ensures Has(items, num) ==>
      SortIfPossible(items)[First(SortIfPossible(items), num)] == items[First(items, num)]
  {
    if AllReadable(items) { SortKeepsFirst(items, num); }
  }

  lemma SortIfPossibleTwice(items: seq<Item>, again: seq<Item>)
    requires |again| == |items| == |SortIfPossible(items)|
    requires forall i :: 0 <= i < |items| ==> NumOf(again[i]) == NumOf(SortIfPossible(items)[i])
    ensures SortIfPossible(again) == again
  {
    if AllReadable(items) {
      SortSorts(items);
      SortOfSorted(again);
    } else {
      var i :| 0 <= i < |items| && NumOf(items[i]).None?;
      assert NumOf(again[i]).None?;
    }
  }

  lemma {:induction false} SortLength(items: seq<Item>)
    ensures |SortIfPossible(items)| == |items|
  {
    if AllReadable(items) {
      SortSorts(items);
      assert |multiset(Sort(items))| == |multiset(items)|;
    }
  }

  // ---------------------------------------------------------------- numbers in order

  ghost predicate Ascending(nums: seq<int>) {
    forall i, j :: 0 <= i < j < |nums| ==> nums[i] < nums[j]
  }

  lemma AppendAscends(nums: seq<int>, n: int)
    requires Ascending(nums) && forall i :: 0 <= i < |nums| ==> nums[i] < n
    ensures Ascending(nums + [n])
  {
  }

  function AddNum(nums: seq<int>, n: int): seq<int> {
    if nums == [] || nums[|nums| - 1] < n then nums + [n]
    else if nums[|nums| - 1] == n then nums
    else AddNum(nums[..|nums| - 1], n) + [nums[|nums| - 1]]
  }

  /** The distinct numbers of the entries, ascending: `sorted(by_num)`. */
  function Numbers(items: seq<Item>): seq<int> {
    if items == [] then []
    else
      var rest := Numbers(items[..|items| - 1]);
      match NumOf(items[|items| - 1]) case Some(n) => AddNum(rest, n) case None => rest
  }

  lemma {:induction false} AddNumAscends(nums: seq<int>, n: int)
    requires Ascending(nums)
    ensures Ascending(AddNum(nums, n))
    ensures forall k :: k in AddNum(nums, n) <==> k in nums || k == n
  {
    if nums != [] && nums[|nums| - 1] > n {
      var butLast := nums[..|nums| - 1];
      AddNumAscends(butLast, n);
      assert nums == butLast + [nums[|nums| - 1]];
      var r := AddNum(butLast, n);
      forall i | 0 <= i < |r|
        ensures r[i] < nums[|nums| - 1]
      {
        assert r[i] in r;
      }
    }
  }

  lemma {:induction false} NumbersExact(items: seq<Item>)
    ensures Ascending(Numbers(items))
    ensures forall n :: n in Numbers(items) <==> Has(items, n)
  {
    if items != [] {
      var butLast, last := items[..|items| - 1], items[|items| - 1];
      NumbersExact(butLast);
      if NumOf(last).Some? { AddNumAscends(Numbers(butLast), NumOf(last).value); }
      assert items == butLast + [last];
      forall n { HasAppend(butLast, last, n); }
    }
  }

  function ButLast(nums: seq<int>): seq<int>
    requires nums != []
  {
    nums[..|nums| - 1]
  }

  lemma SomeMember(nums: seq<int>)
    ensures nums != [] ==> exists n :: n in nums
  {
    if nums != [] {
      var n := nums[0];
      assert n in nums;
    }
  }

  lemma LastIsGreatest(nums: seq<int>)
    requires Ascending(nums) && nums != []
    ensures Ascending(ButLast(nums)) && nums == ButLast(nums) + [nums[|nums| - 1]]
    ensures forall n :: n in nums <==> n in ButLast(nums) || n == nums[|nums| - 1]
    ensures forall n :: n in ButLast(nums) ==> n < nums[|nums| - 1]
  {
    assert nums == ButLast(nums) + [nums[|nums| - 1]];
  }

  /** Two ascending lists with the same members are the same list. */
  lemma {:induction false} AscendingUnique(a: seq<int>, b: seq<int>)
    requires Ascending(a) && Ascending(b)
    requires forall n :: n in a <==> n in b
    ensures a == b
  {
    SomeMember(a);
    SomeMember(b);
    if a != [] && b != [] {
      LastIsGreatest(a);
      LastIsGreatest(b);
      var x, y := a[|a| - 1], b[|b| - 1];
      hide Ascending;
      assert x in a && y in b && x in b && y in a;
      forall n
        ensures n in ButLast(a) <==> n in ButLast(b)
      {
        assert n in a <==> n in b;
      }
      AscendingUnique(ButLast(a), ButLast(b));
    }
  }
}
