/**
 * Forecast records and createBuilder's split of the dataset into the u- and
 * v-component series (GRIB parameter category 2, numbers 2 and 3).
 */
module Forecast {

  /** The part of a GRIB2 record header the core reads. */
  datatype Header = Header(
    lo1: real, la1: real,    // grid origin, degrees
    dx: real, dy: real,      // spacing between grid points, degrees
    nx: nat, ny: nat,        // grid points west-east and north-south
    parameterCategory: int,
    parameterNumber: int)

  /** One forecast frame: a header and the samples in row-major order (j*nx + i). */
  datatype Record = Record(header: Header, data: seq<real>)

  /** createBuilder's switch on `parameterCategory + "," + parameterNumber`. */
  predicate Tagged(r: Record, category: int, number: int) {
    r.header.parameterCategory == category && r.header.parameterNumber == number
  }

  predicate IsU(r: Record) { Tagged(r, 2, 2) }

  predicate IsV(r: Record) { Tagged(r, 2, 3) }

  /** The records of `s` tagged (category, number), in input order. */
  function Select(s: seq<Record>, category: int, number: int): seq<Record>
  {
    if s == [] then []
    else Select(s[..|s| - 1], category, number)
         + (if Tagged(s[|s| - 1], category, number) then [s[|s| - 1]] else [])
  }

  /**
   * createBuilder's forEach: every "2,2" record is pushed onto uComp and every
   * "2,3" record onto vComp; any other record is only remembered as `scalar`,
   * which nothing reads.
   */
  method CreateBuilder(data: seq<Record>) returns (uComp: seq<Record>, vComp: seq<Record>)
    ensures uComp == Select(data, 2, 2)
    ensures vComp == Select(data, 2, 3)
  {
    uComp, vComp := [], [];
    var k := 0;
    while k < |data|
      invariant 0 <= k <= |data|
      invariant uComp == Select(data[..k], 2, 2)
      invariant vComp == Select(data[..k], 2, 3)
    {
      var record := data[k];
      assert data[..k + 1][..k] == data[..k];
      if IsU(record) {
        uComp := uComp + [record];
      } else if IsV(record) {
        vComp := vComp + [record];
      }
      k := k + 1;
    }
    assert data[..|data|] == data;
  }

  /** A record is selected exactly when it occurs in the input with the tag. */
  lemma {:induction false} SelectMembership(s: seq<Record>, category: int, number: int, r: Record)
    ensures r in Select(s, category, number) <==> r in s && Tagged(r, category, number)
    decreases |s|
  {
    if s != [] {
      var init := s[..|s| - 1];
      SelectMembership(init, category, number, r);
      assert s == init + [s[|s| - 1]];
    }
  }

  /** Selection preserves input order: it distributes over concatenation. */
  lemma {:induction false} SelectAppend(a: seq<Record>, b: seq<Record>, category: int, number: int)
    ensures Select(a + b, category, number) == Select(a, category, number) + Select(b, category, number)
    decreases |b|
  {
    if b == [] {
      assert a + b == a;
    } else {
      var init := b[..|b| - 1];
      assert (a + b)[..|a + b| - 1] == a + init;
      SelectAppend(a, init, category, number);
    }
  }

  /** Every selected record carries the tag, so the u and v series never share a record. */
  lemma {:induction false} SelectTagged(s: seq<Record>, category: int, number: int)
    ensures forall k :: 0 <= k < |Select(s, category, number)| ==>
              Tagged(Select(s, category, number)[k], category, number)
    decreases |s|
  {
    if s != [] {
      SelectTagged(s[..|s| - 1], category, number);
    }
  }

  /** The u and v series together take each input record at most once. */
  lemma {:induction false} SplitIsPartition(s: seq<Record>)
    ensures multiset(Select(s, 2, 2)) + multiset(Select(s, 2, 3)) <= multiset(s)
    decreases |s|
  {
    if s != [] {
      var init, last := s[..|s| - 1], s[|s| - 1];
      SplitIsPartition(init);
      assert s == init + [last];
      assert multiset(s) == multiset(init) + multiset{last};
      var u, v := Select(init, 2, 2), Select(init, 2, 3);
      if IsU(last) {
        assert Select(s, 2, 2) == u + [last] && Select(s, 2, 3) == v;
        assert multiset(u + [last]) == multiset(u) + multiset{last};
      } else if IsV(last) {
        assert Select(s, 2, 2) == u && Select(s, 2, 3) == v + [last];
        assert multiset(v + [last]) == multiset(v) + multiset{last};
      } else {
        assert Select(s, 2, 2) == u && Select(s, 2, 3) == v;
      }
    }
  }
}
