/** The rows of the process table and how they are built from the operating
    system's snapshot (the Process Record Builder). */
module Records {

  /** Rust's `u32` and `u64`. */
  type U32 = x: int | 0 <= x < 0x1_0000_0000
  type U64 = x: int | 0 <= x < 0x1_0000_0000_0000_0000

  const BytesPerMegabyte: nat := 1024 * 1024

  /** One entry of the snapshot the system-information library returns: the pid, the
      process name, resident memory in bytes and the CPU usage. The CPU usage is an
      `f32` in the source; here it is a real number, so NaN cannot occur. */
  datatype RawProcess = RawProcess(pid: U32, name: string, bytes: U64, cpu: real)

  /** `ProcessInfo`: one row of the table, memory in whole megabytes. */
  datatype ProcessInfo = ProcessInfo(pid: U32, name: string, memory: U64, cpu: real)

  /** `bytes / 1024 / 1024` is the floor of `bytes / 1048576`. */
  lemma DivideTwice(bytes: nat)
    ensures bytes / 1024 / 1024 == bytes / BytesPerMegabyte
  {
    var q1, r1 := bytes / 1024, bytes % 1024;
    var q2, r2 := q1 / 1024, q1 % 1024;
    assert bytes == BytesPerMegabyte * q2 + (1024 * r2 + r1);
    assert 0 <= 1024 * r2 + r1 < BytesPerMegabyte;
  }

  /** The closure mapped over the snapshot in `refresh`: pid, name and CPU carried
      over, memory converted from bytes to whole megabytes, fractions truncated. */
  function ToRecord(e: RawProcess): (r: ProcessInfo)
    ensures r.pid == e.pid && r.name == e.name && r.cpu == e.cpu
    ensures r.memory == e.bytes / BytesPerMegabyte
    ensures r.memory * BytesPerMegabyte <= e.bytes < (r.memory + 1) * BytesPerMegabyte
  {
    DivideTwice(e.bytes);
    ProcessInfo(e.pid, e.name, e.bytes / 1024 / 1024, e.cpu)
  }

  /** One record per snapshot entry, in the snapshot's order. */
  function Build(snapshot: seq<RawProcess>): seq<ProcessInfo> {
    seq(|snapshot|, i requires 0 <= i < |snapshot| => ToRecord(snapshot[i]))
  }

  lemma MemoryConversionExamples()
    ensures ToRecord(RawProcess(10, "a", 2097152, 1.0)).memory == 2
    ensures ToRecord(RawProcess(10, "a", 1000000, 1.0)).memory == 0
    ensures ToRecord(RawProcess(10, "a", 1048575, 1.0)).memory == 0
    ensures ToRecord(RawProcess(10, "a", 1048576, 1.0)).memory == 1
  {
  }
}
