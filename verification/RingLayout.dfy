/** Carving the two rings out of the control-SHM region. */
module RingLayout {
  import opened Bytes

  const SHM_HDR_SIZE: nat := 4096
  const CMD_RING_LEN: nat := 65536
  const RSP_RING_MIN_LEN: nat := 4096
  const SHM_MIN_SIZE: nat := SHM_HDR_SIZE + CMD_RING_LEN + RSP_RING_MIN_LEN

  datatype Layout = Layout(cmdOff: nat, cmdLen: nat, rspOff: nat, rspLen: nat)

  /** Rounding down to a whole number of 4 KB pages. */
  function PageFloor(n: nat): nat {
    n - n % 4096
  }

  /**
   * A size is accepted exactly when header, command ring and one response page fit. The command ring then takes
   * 64 KB behind the header page, the response ring all whole pages after it.
   */
  function ComputeRingLayout(size: nat): (r: Option<Layout>)
    ensures r.Some? <==> 73728 <= size
    ensures r.Some? ==>
              var l := r.value;
              && l.cmdOff == 4096 && l.cmdLen == 65536 && l.rspOff == 69632
              && l.rspOff + l.rspLen <= size < l.rspOff + l.rspLen + 4096
              && 0 < l.rspLen && l.rspLen % 4096 == 0
  {
    if size < SHM_MIN_SIZE then
      None
    else
      var cmdOff := SHM_HDR_SIZE;
      var rspOff := cmdOff + CMD_RING_LEN;
      var rspLen := PageFloor(size - rspOff);
      if rspLen < RSP_RING_MIN_LEN then
        None
      else
        Some(Layout(cmdOff, CMD_RING_LEN, rspOff, rspLen))
  }
}
