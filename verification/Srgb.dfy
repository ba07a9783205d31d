/** The sRGB transfer table of src/objects/texture.c (IEC 61966-2-1) and the
    binary search that inverts it. Reals stand for the code's floats. */
module Srgb {
  function Quarter0(i: nat): (r: seq<nat>)
    requires i < 4
    ensures |r| == 16
  {
    if i == 0 then [0, 20, 40, 60, 80, 99, 119, 139, 159, 179, 199, 219, 241, 264, 288, 313]
    else if i == 1 then [340, 367, 396, 427, 458, 491, 526, 562, 599, 637, 677, 718, 761, 805, 851, 898]
    else if i == 2 then [947, 997, 1048, 1101, 1156, 1212, 1270, 1330, 1391, 1453, 1517, 1583, 1651, 1720, 1790, 1863]
    else [1937, 2013, 2090, 2170, 2250, 2333, 2418, 2504, 2592, 2681, 2773, 2866, 2961, 3058, 3157, 3258]
  }

  function Quarter1(i: nat): (r: seq<nat>)
    requires i < 4
    ensures |r| == 16
  {
    if i == 0 then [3360, 3464, 3570, 3678, 3788, 3900, 4014, 4129, 4247, 4366, 4488, 4611, 4736, 4864, 4993, 5124]
    else if i == 1 then [5257, 5392, 5530, 5669, 5810, 5953, 6099, 6246, 6395, 6547, 6700, 6856, 7014, 7174, 7335, 7500]
    else if i == 2 then [7666, 7834, 8004, 8177, 8352, 8528, 8708, 8889, 9072, 9258, 9445, 9635, 9828, 10022, 10219, 10417]
    else [10619, 10822, 11028, 11235, 11446, 11658, 11873, 12090, 12309, 12530, 12754, 12980, 13209, 13440, 13673, 13909]
  }

  function Quarter2(i: nat): (r: seq<nat>)
    requires i < 4
    ensures |r| == 16
  {
    if i == 0 then [14146, 14387, 14629, 14874, 15122, 15371, 15623, 15878, 16135, 16394, 16656, 16920, 17187, 17456, 17727, 18001]
    else if i == 1 then [18277, 18556, 18837, 19121, 19407, 19696, 19987, 20281, 20577, 20876, 21177, 21481, 21787, 22096, 22407, 22721]
    else if i == 2 then [23038, 23357, 23678, 24002, 24329, 24658, 24990, 25325, 25662, 26001, 26344, 26688, 27036, 27386, 27739, 28094]
    else [28452, 28813, 29176, 29542, 29911, 30282, 30656, 31033, 31412, 31794, 32179, 32567, 32957, 33350, 33745, 34143]
  }

  function Quarter3(i: nat): (r: seq<nat>)
    requires i < 4
    ensures |r| == 16
  {
    if i == 0 then [34544, 34948, 35355, 35764, 36176, 36591, 37008, 37429, 37852, 38278, 38706, 39138, 39572, 40009, 40449, 40891]
    else if i == 1 then [41337, 41785, 42236, 42690, 43147, 43606, 44069, 44534, 45002, 45473, 45947, 46423, 46903, 47385, 47871, 48359]
    else if i == 2 then [48850, 49344, 49841, 50341, 50844, 51349, 51858, 52369, 52884, 53401, 53921, 54445, 54971, 55500, 56032, 56567]
    else [57105, 57646, 58190, 58737, 59287, 59840, 60396, 60955, 61517, 62082, 62650, 63221, 63795, 64372, 64952, 65535]
  }

  /** The 256-entry table, sixteen entries to a row. */
  function TableRow(i: nat): (r: seq<nat>)
    requires i < 16
    ensures |r| == 16
  {
    if i < 4 then Quarter0(i)
    else if i < 8 then Quarter1(i - 4)
    else if i < 12 then Quarter2(i - 8)
    else Quarter3(i - 12)
  }

  function Linear(v: nat): nat
    requires v < 256
  {
    TableRow(v / 16)[v % 16]
  }

  /** ringl_srgb_decode_u8. */
  function Decode(v: nat): real
    requires v < 256
  {
    Linear(v) as real / 65535.0
  }

  // ------------------------------------------------------------- the table

  predicate Increasing(r: seq<nat>)
    requires |r| == 16
  {
    && r[0] < r[1] < r[2] < r[3] < r[4] < r[5] < r[6] < r[7] < r[8]
    && r[8] < r[9] < r[10] < r[11] < r[12] < r[13] < r[14] < r[15]
  }

  lemma Quarter0Increases(i: nat)
    requires i < 4
    ensures Increasing(Quarter0(i))
    ensures i < 3 ==> Quarter0(i)[15] < Quarter0(i + 1)[0]
  {
  }

  lemma Quarter1Increases(i: nat)
    requires i < 4
    ensures Increasing(Quarter1(i))
    ensures i < 3 ==> Quarter1(i)[15] < Quarter1(i + 1)[0]
  {
  }

  lemma Quarter2Increases(i: nat)
    requires i < 4
    ensures Increasing(Quarter2(i))
    ensures i < 3 ==> Quarter2(i)[15] < Quarter2(i + 1)[0]
  {
  }

  lemma Quarter3Increases(i: nat)
    requires i < 4
    ensures Increasing(Quarter3(i))
    ensures i < 3 ==> Quarter3(i)[15] < Quarter3(i + 1)[0]
  {
  }

  lemma QuartersMeet()
    ensures Quarter0(3)[15] < Quarter1(0)[0]
    ensures Quarter1(3)[15] < Quarter2(0)[0]
    ensures Quarter2(3)[15] < Quarter3(0)[0]
  {
  }

  lemma RowsIncrease(i: nat)
    requires i < 16
    ensures Increasing(TableRow(i))
    ensures i < 15 ==> TableRow(i)[15] < TableRow(i + 1)[0]
  {
    hide Quarter0, Quarter1, Quarter2, Quarter3, Increasing;
    QuartersMeet();
    if i < 4 {
      Quarter0Increases(i);
    } else if i < 8 {
      Quarter1Increases(i - 4);
    } else if i < 12 {
      Quarter2Increases(i - 8);
    } else {
      Quarter3Increases(i - 12);
    }
  }

  lemma RowSteps(r: seq<nat>, j: nat)
    requires |r| == 16 && Increasing(r) && j < 15
    ensures r[j] < r[j + 1]
  {
  }

  lemma TableSteps(v: nat)
    requires v < 255
    ensures Linear(v) < Linear(v + 1)
  {
    hide TableRow, Increasing;
    RowsIncrease(v / 16);
    if v % 16 < 15 {
      assert (v + 1) / 16 == v / 16 && (v + 1) % 16 == v % 16 + 1;
      RowSteps(TableRow(v / 16), v % 16);
    } else {
      assert (v + 1) / 16 == v / 16 + 1 && (v + 1) % 16 == 0;
    }
  }

  lemma {:induction false} TableIncreases(a: nat, b: nat)
    requires a < b < 256
    ensures Linear(a) < Linear(b)
    decreases b - a
  {
    hide Linear;
    TableSteps(a);
    if a + 1 < b {
      TableIncreases(a + 1, b);
    }
  }

  lemma DecodeIncreases(a: nat, b: nat)
    requires a < b < 256
    ensures Decode(a) < Decode(b)
  {
    hide Linear;
    TableIncreases(a, b);
  }

  /** The table runs from zero to one. */
  lemma DecodeEnds()
    ensures Decode(0) == 0.0 && Decode(255) == 1.0
  {
    assert Linear(0) == 0;
    assert Linear(255) == 65535;
  }

  // -------------------------------------------------------------- encoding

  /** Where the binary search for the first entry at or above `value` ends. */
  function Search(value: real, low: nat, high: nat): (r: nat)
    requires low <= high < 256
    ensures low <= r <= high
    decreases high - low
  {
    if low == high then low
    else
      var middle := low + (high - low) / 2;
      if Decode(middle) < value then Search(value, middle + 1, high) else Search(value, low, middle)
  }

  /** ringl_srgb_encode_float. */
  function Encode(value: real): (r: nat)
    ensures r < 256
  {
    if !(value > 0.0) then 0
    else if value >= 1.0 then 255
    else
      var low := Search(value, 0, 255);
      if low != 0 && value - Decode(low - 1) < Decode(low) - value then low - 1 else low
  }

  lemma SearchSteps(value: real, low: nat, high: nat)
    requires low <= high < 256
    ensures low == high ==> Search(value, low, high) == low
    ensures low < high ==>
              var middle := low + (high - low) / 2;
              && middle < high
              && Search(value, low, high)
                 == if Decode(middle) < value then Search(value, middle + 1, high) else Search(value, low, middle)
  {
    hide Decode;
  }

  method EncodeFloat(value: real) returns (v: nat)
    ensures v == Encode(value)
  {
    hide Decode, Search;
    if !(value > 0.0) {
      return 0;
    }
    if value >= 1.0 {
      return 255;
    }
    var low: nat, high: nat := 0, 255;
    while low < high
      invariant low <= high < 256
      invariant Search(value, low, high) == Search(value, 0, 255)
    {
      SearchSteps(value, low, high);
      var middle := low + (high - low) / 2;
      if Decode(middle) < value {
        low := middle + 1;
      } else {
        high := middle;
      }
    }
    SearchSteps(value, low, high);
    if low != 0 {
      var upper := Decode(low);
      var lower := Decode(low - 1);
      if value - lower < upper - value {
        return low - 1;
      }
    }
    return low;
  }

  lemma {:induction false} SearchSplits(value: real, low: nat, high: nat)
    requires low <= high < 256
    requires forall w :: 0 <= w < low ==> Decode(w) < value
    requires value <= Decode(high)
    ensures value <= Decode(Search(value, low, high))
    ensures forall w :: 0 <= w < Search(value, low, high) ==> Decode(w) < value
    decreases high - low
  {
    hide Decode;
    if low < high {
      var middle := low + (high - low) / 2;
      if Decode(middle) < value {
        forall w | 0 <= w < middle + 1
          ensures Decode(w) < value
        {
          if w < middle {
            DecodeIncreases(w, middle);
          }
        }
        SearchSplits(value, middle + 1, high);
      } else {
        SearchSplits(value, low, middle);
      }
    }
  }

  function Distance(a: real, b: real): real { if a <= b then b - a else a - b }

  /** `v` is a nearest entry to `value`, and the last one at that distance. */
  ghost predicate Nearest(value: real, v: nat)
    requires v < 256
  {
    forall w :: 0 <= w < 256 ==>
      && Distance(value, Decode(v)) <= Distance(value, Decode(w))
      && (Distance(value, Decode(v)) == Distance(value, Decode(w)) ==> w <= v)
  }

  lemma DecodeInUnit(w: nat)
    requires w < 256
    ensures 0.0 <= Decode(w) <= 1.0
    ensures 0 < w ==> 0.0 < Decode(w)
    ensures w < 255 ==> Decode(w) < 1.0
  {
    hide Decode;
    DecodeEnds();
    if 0 < w {
      DecodeIncreases(0, w);
    }
    if w < 255 {
      DecodeIncreases(w, 255);
    }
  }

  /** Every real is encoded as its nearest entry, ties going up; in particular
      everything at or below zero as 0 and everything from one on as 255. */
  lemma EncodeIsNearest(value: real)
    ensures Nearest(value, Encode(value))
  {
    hide Decode, Search;
    DecodeEnds();
    var v := Encode(value);
    if 0.0 < value < 1.0 {
      SearchSplits(value, 0, 255);
    }
    forall w | 0 <= w < 256
      ensures Distance(value, Decode(v)) <= Distance(value, Decode(w))
      ensures Distance(value, Decode(v)) == Distance(value, Decode(w)) ==> w <= v
    {
      DecodeInUnit(w);
      if 0.0 < value < 1.0 {
        var low := Search(value, 0, 255);
        if low < w {
          DecodeIncreases(low, w);
        } else if w + 1 < low {
          DecodeIncreases(w, low - 1);
        }
      }
    }
  }

  /** There is only one such entry, so Nearest pins the encoder down. */
  lemma NearestIsEncode(value: real, v: nat)
    requires v < 256 && Nearest(value, v)
    ensures v == Encode(value)
  {
    hide Decode, Encode, Distance;
    EncodeIsNearest(value);
    var u := Encode(value);
    assert Distance(value, Decode(u)) <= Distance(value, Decode(v));
    assert Distance(value, Decode(v)) <= Distance(value, Decode(u));
  }

  lemma EncodeIsMonotone(a: real, b: real)
    requires a <= b
    ensures Encode(a) <= Encode(b)
  {
    hide Decode, Encode;
    EncodeIsNearest(a);
    EncodeIsNearest(b);
    var u, v := Encode(a), Encode(b);
    assert Distance(a, Decode(u)) <= Distance(a, Decode(v));
    assert Distance(b, Decode(v)) <= Distance(b, Decode(u));
    if v < u {
      DecodeIncreases(v, u);
    }
  }

  /** Encoding is a left inverse of decoding. */
  lemma EncodeInvertsDecode(v: nat)
    requires v < 256
    ensures Encode(Decode(v)) == v
  {
    hide Decode, Encode;
    forall w | 0 <= w < 256
      ensures Distance(Decode(v), Decode(v)) <= Distance(Decode(v), Decode(w))
      ensures Distance(Decode(v), Decode(v)) == Distance(Decode(v), Decode(w)) ==> w <= v
    {
      if v < w {
        DecodeIncreases(v, w);
      }
    }
    NearestIsEncode(Decode(v), v);
  }

}
