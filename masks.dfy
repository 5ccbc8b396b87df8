/** Hour masks: a Java `int` used as a set of 24 hour bits, bit `h` standing for
    the hour h:00-h:59. Which meaning a set bit has (closed or open) is up to
    the module that uses these masks; this module gives the hour-list views
    shared by both. */
module Masks {

  import opened Wrappers
  import opened Bits

  /** Hours run from 0 to 23. */
  const HoursPerDay := 24

  /** Every element of a Java hour list lies in [0, 23]. */
  predicate AllHours(hours: seq<int>) {
    forall i :: 0 <= i < |hours| ==> 0 <= hours[i] < HoursPerDay
  }

  /** The nullable hour lists a transfer form may carry (`List<@Min(0) @Max(23)
      Integer>`): null, or every element in [0, 23]. */
  predicate ValidHours(hours: Option<seq<int>>) {
    hours.Some? ==> AllHours(hours.value)
  }

  /** Strictly ascending, hence also free of duplicates. */
  predicate Ascending(s: seq<int>) {
    forall i, j :: 0 <= i < j < |s| ==> s[i] < s[j]
  }

  /** `output` is the ascending, duplicate-free form of the nullable list
      `input`: null stays null, and otherwise the same hours appear, each once,
      in ascending order. */
  ghost predicate Normalised(input: Option<seq<int>>, output: Option<seq<int>>) {
    && (input.None? <==> output.None?)
    && (input.Some? && output.Some? ==>
          && Ascending(output.value)
          && forall x :: x in output.value <==> x in input.value)
  }


  // ---------------------------------------------------------------------------
  // Hour lists and masks

  /** The OR of `1 << h` over a list, folded from the left as Java's
      `for (int hour : hours) mask |= 1 << hour` does. */
  function OrOfBits(hours: seq<int>): Int32
    requires AllHours(hours)
  {
    if hours == [] then 0
    else OrOfBits(hours[..|hours| - 1]) | Bit(hours[|hours| - 1])
  }

  /** The last hour of the list contributes its own bit and nothing else. */
  lemma OrOfBitsLast(hours: seq<int>, h: BitIndex)
    requires AllHours(hours) && hours != []
    ensures Has(OrOfBits(hours), h) <==>
              Has(OrOfBits(hours[..|hours| - 1]), h) || h == hours[|hours| - 1]
  {
    var init, last := hours[..|hours| - 1], hours[|hours| - 1];
    HasOrOf(OrOfBits(hours), OrOfBits(init), Bit(last), h);
    HasBit(last, h);
  }

  /** A bit of the OR is set iff its hour occurs in the list; in particular no
      bit from 24 up is set. */
  lemma {:induction false} OrOfBitsHas(hours: seq<int>, h: BitIndex)
    requires AllHours(hours)
    ensures Has(OrOfBits(hours), h) <==> h in hours
  {
    if hours == [] {
      HasZero(h);
    } else {
      var init, last := hours[..|hours| - 1], hours[|hours| - 1];
      OrOfBitsHas(init, h);
      OrOfBitsLast(hours, h);
      assert hours == init + [last];
    }
  }

  /** The OR depends only on which hours occur: not on their order, not on
      duplicates. */
  lemma OrOfBitsOnlyMembers(a: seq<int>, b: seq<int>)
    requires AllHours(a) && AllHours(b)
    requires forall x :: x in a <==> x in b
    ensures OrOfBits(a) == OrOfBits(b)
  {
    forall h: BitIndex ensures Has(OrOfBits(a), h) <==> Has(OrOfBits(b), h) {
      OrOfBitsHas(a, h);
      OrOfBitsHas(b, h);
    }
    BitsExtensional(OrOfBits(a), OrOfBits(b));
  }

  /** The OR of `1 << h` for h from `s` up to `e`, as the loop
      `for (hour = s; hour <= e; ++hour) mask |= 1 << hour` builds it; 0 when
      `s > e`, since the loop then never runs. */
  function RangeMask(s: int, e: int): Int32
    requires e < s || (0 <= s && e < HoursPerDay)
    decreases e - s
  {
    if e < s then 0 else RangeMask(s, e - 1) | Bit(e)
  }

  /** Bit h of the range mask is set iff s <= h <= e. */
  lemma {:induction false} RangeMaskHas(s: int, e: int, h: BitIndex)
    requires e < s || (0 <= s && e < HoursPerDay)
    ensures Has(RangeMask(s, e), h) <==> s <= h <= e
    decreases e - s
  {
    if e < s {
      HasZero(h);
    } else {
      RangeMaskHas(s, e - 1, h);
      HasOrOf(RangeMask(s, e), RangeMask(s, e - 1), Bit(e), h);
      HasBit(e, h);
    }
  }

  /** The hours below `n`, ascending, whose bit in `m` equals `bitSet`: the list
      the loop `for (i = 0; i < n; ++i) if (bit i test) list.add(i)` builds. */
  function HoursWith(m: Int32, n: nat, bitSet: bool): (r: seq<int>)
    requires n <= HoursPerDay
    ensures AllHours(r)
  {
    if n == 0 then []
    else HoursWith(m, n - 1, bitSet) + (if Has(m, n - 1) == bitSet then [n - 1] else [])
  }

  /** That list is ascending and holds exactly the hours below `n` whose bit
      equals `bitSet`. */
  lemma {:induction false} HoursWithSpec(m: Int32, n: nat, bitSet: bool)
    requires n <= HoursPerDay
    ensures Ascending(HoursWith(m, n, bitSet))
    ensures forall x :: x in HoursWith(m, n, bitSet) <==> 0 <= x < n && Has(m, x) == bitSet
  {
    if n > 0 {
      HoursWithSpec(m, n - 1, bitSet);
      var prev := HoursWith(m, n - 1, bitSet);
      assert forall i :: 0 <= i < |prev| ==> prev[i] < n - 1 by {
        forall i | 0 <= i < |prev| ensures prev[i] < n - 1 {
          assert prev[i] in prev;
        }
      }
    }
  }

  /** In an ascending list the tail holds exactly the elements other than the head. */
  lemma TailElements(s: seq<int>, x: int)
    requires Ascending(s) && s != []
    ensures x in s[1..] <==> x in s && x != s[0]
  {
    if x in s[1..] {
      var k :| 0 <= k < |s| - 1 && s[1..][k] == x;
      assert s[k + 1] == x;
    }
    if x in s && x != s[0] {
      var k :| 0 <= k < |s| && s[k] == x;
      assert s[1..][k - 1] == x;
    }
  }

  /** Two ascending lists with the same elements are equal: the ascending,
      duplicate-free form of a list is unique. */
  lemma {:induction false} AscendingUnique(a: seq<int>, b: seq<int>)
    requires Ascending(a) && Ascending(b)
    requires forall x :: x in a <==> x in b
    ensures a == b
  {
    if b != [] {
      assert b[0] in b;
      assert b[0] in a;
    }
    if a != [] {
      assert a[0] in a;
      assert a[0] in b;
    }
    if a != [] && b != [] {
      assert a[0] == b[0] by {
        assert a[0] in b && b[0] in a;
      }
      forall x ensures x in a[1..] <==> x in b[1..] {
        TailElements(a, x);
        TailElements(b, x);
      }
      AscendingUnique(a[1..], b[1..]);
      assert a == [a[0]] + a[1..] && b == [b[0]] + b[1..];
    }
  }

  /** The normalised form of a list is unique: any two outputs that both
      normalise the same input are equal. */
  lemma NormalisedUnique(input: Option<seq<int>>, a: Option<seq<int>>, b: Option<seq<int>>)
    requires Normalised(input, a) && Normalised(input, b)
    ensures a == b
  {
    if input.Some? {
      AscendingUnique(a.value, b.value);
    }
  }
}
