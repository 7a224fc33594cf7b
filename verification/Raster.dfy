// Row-major buffers: where a row starts.
module Raster {

  /** `stride * rows`, one row at a time. */
  function Area(stride: nat, rows: nat): nat {
    if rows == 0 then 0 else Area(stride, rows - 1) + stride
  }

  lemma {:induction false} AreaIsProduct(stride: nat, rows: nat)
    ensures Area(stride, rows) == stride * rows
  {
    if rows != 0 {
      AreaIsProduct(stride, rows - 1);
      assert stride * rows == stride * (rows - 1) + stride;
    }
  }

  lemma {:induction false} AreaWithFilters(stride: nat, rows: nat)
    ensures Area(stride + 1, rows) == Area(stride, rows) + rows
  {
    if rows != 0 {
      AreaWithFilters(stride, rows - 1);
    }
  }

  lemma {:induction false} AreaIncreases(stride: nat, few: nat, many: nat)
    requires few <= many
    ensures Area(stride, few) <= Area(stride, many)
  {
    if few < many {
      AreaIncreases(stride, few, many - 1);
    }
  }
}
