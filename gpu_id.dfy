/**
 * The GPU-id holder of hybrid_mpi_hip/utils/gpu_utils.hip.cpp: one id, unset
 * (`-1`) until some caller stores one, read back or refused while unset.
 */
module GpuId {
  import opened Wrappers

  /** The `invalid_argument` thrown while no id is set. */
  datatype Unset = GpuIdNotSet

  class GpuIdHolder {
    /** `_gpu_id`. */
    var gpuId: int

    constructor ()
      ensures gpuId == -1
    {
      gpuId := -1;
    }

    /** `getMyGPU()`: the stored id, or an error while it is negative. */
    method GetMyGPU() returns (r: Result<int, Unset>)
      ensures gpuId < 0 ==> r == Err(GpuIdNotSet)
      ensures gpuId >= 0 ==> r == Ok(gpuId)
      ensures r.Ok? ==> r.value >= 0
    {
      if gpuId < 0 {
        return Err(GpuIdNotSet);
      }
      r := Ok(gpuId);
    }

    /** `setMyGPU(id)`: overwrite the stored id, unchecked. */
    method SetMyGPU(id: int)
      modifies this
      ensures gpuId == id
    {
      gpuId := id;
    }
  }

  /** A fresh holder refuses to answer. */
  method FreshIsUnset() returns (r: Result<int, Unset>)
    ensures r == Err(GpuIdNotSet)
  {
    var h := new GpuIdHolder();
    r := h.GetMyGPU();
  }

  /** The last id set wins: a non-negative one is returned as it is, whatever
      was set before and whether or not it is below the GPU count; a negative
      one makes the holder refuse again. */
  method SetThenGet(first: int, second: int) returns (r: Result<int, Unset>)
    ensures second >= 0 ==> r == Ok(second)
    ensures second < 0 ==> r == Err(GpuIdNotSet)
  {
    var h := new GpuIdHolder();
    h.SetMyGPU(first);
    h.SetMyGPU(second);
    r := h.GetMyGPU();
  }
}
