/**
 * The energy and utilisation summary computed after a monitored run: sums
 * over the GPU and CPU/DRAM energy logs, utilisation means over the docker
 * stats log, the apportioning of CPU and DRAM energy by utilisation, and
 * the reported totals. The logs arrive as already parsed rows of reals.
 */
module Telemetry {
  import opened Wrappers
  import opened Numbers

  /** One row of the GPU log: the `energy` and `max_mem` columns. */
  datatype GpuRow = GpuRow(energy: real, maxMem: real)

  /** One row of the CPU log: the `cpu_energy` and `dram_energy` columns. */
  datatype CpuRow = CpuRow(cpuEnergy: real, dramEnergy: real)

  /** One row of the docker stats log: `cpu_util` and `mem_util` in percent, with the `%` sign stripped. */
  datatype DockerRow = DockerRow(cpuPercent: real, memPercent: real)

  /** The starting value of the docker row counter; it keeps the means defined for an empty log. */
  const RowOffset: real := 0.000001

  /** Kibibytes in a gibibyte: `2 ** 20`. */
  const KibPerGib: real := 1048576.0

  /** The figures the run reports. */
  datatype Report = Report(
    timeElapsed: real,
    throughput: real,
    gpuEnergy: real,
    cpuEnergy: real,
    memEnergy: real,
    totalEnergy: real,
    maxDramGib: real,
    maxGpuMem: real)

  /** Dividing the instance count by an elapsed time of zero. */
  datatype AggregateError = ZeroDivisionError

  // ---------------------------------------------------------------------
  // Column sums, as functions of a prefix of the log
  // ---------------------------------------------------------------------

  function GpuEnergySum(rows: seq<GpuRow>): real {
    if |rows| == 0 then 0.0 else GpuEnergySum(rows[..|rows| - 1]) + rows[|rows| - 1].energy
  }

  /** The sum of the `max_mem` column; the log is summed, not maximised. */
  function GpuMemSum(rows: seq<GpuRow>): real {
    if |rows| == 0 then 0.0 else GpuMemSum(rows[..|rows| - 1]) + rows[|rows| - 1].maxMem
  }

  function CpuEnergySum(rows: seq<CpuRow>): real {
    if |rows| == 0 then 0.0 else CpuEnergySum(rows[..|rows| - 1]) + rows[|rows| - 1].cpuEnergy
  }

  function DramEnergySum(rows: seq<CpuRow>): real {
    if |rows| == 0 then 0.0 else DramEnergySum(rows[..|rows| - 1]) + rows[|rows| - 1].dramEnergy
  }

  /** The sum of the CPU readings as fractions. */
  function CpuFractionSum(rows: seq<DockerRow>): real {
    if |rows| == 0 then 0.0 else CpuFractionSum(rows[..|rows| - 1]) + rows[|rows| - 1].cpuPercent / 100.0
  }

  /** The sum of the memory readings as fractions. */
  function MemFractionSum(rows: seq<DockerRow>): real {
    if |rows| == 0 then 0.0 else MemFractionSum(rows[..|rows| - 1]) + rows[|rows| - 1].memPercent / 100.0
  }

  /** The largest running sum of the memory fractions, starting from 0. */
  function PeakMemFraction(rows: seq<DockerRow>): real {
    if |rows| == 0 then 0.0 else Max(PeakMemFraction(rows[..|rows| - 1]), MemFractionSum(rows))
  }

  /** The mean CPU utilisation per core: the fraction sum over the row count plus the offset, over the cores. */
  function CpuUtil(rows: seq<DockerRow>, numCpus: nat): real
    requires numCpus >= 1
  {
    CpuFractionSum(rows) / (|rows| as real + RowOffset) / (numCpus as real)
  }

  /** The mean memory utilisation: the fraction sum over the row count plus the offset. */
  function MemUtil(rows: seq<DockerRow>): real {
    MemFractionSum(rows) / (|rows| as real + RowOffset)
  }

  // ---------------------------------------------------------------------
  // The three reading loops
  // ---------------------------------------------------------------------

  /** The loop over the GPU log: total energy and the summed `max_mem` column. */
  method SumGpuLog(rows: seq<GpuRow>) returns (gpuEnergy: real, maxGpuMem: real)
    ensures gpuEnergy == GpuEnergySum(rows)
    ensures maxGpuMem == GpuMemSum(rows)
  {
    gpuEnergy, maxGpuMem := 0.0, 0.0;
    for i := 0 to |rows|
      invariant gpuEnergy == GpuEnergySum(rows[..i])
      invariant maxGpuMem == GpuMemSum(rows[..i])
    {
      assert rows[..i + 1][..i] == rows[..i];
      gpuEnergy := gpuEnergy + rows[i].energy;
      maxGpuMem := maxGpuMem + rows[i].maxMem;
    }
    assert rows[..|rows|] == rows;
  }

  /** The loop over the CPU log: raw CPU and DRAM energy. */
  method SumCpuLog(rows: seq<CpuRow>) returns (cpuEnergy: real, memEnergy: real)
    ensures cpuEnergy == CpuEnergySum(rows)
    ensures memEnergy == DramEnergySum(rows)
  {
    cpuEnergy, memEnergy := 0.0, 0.0;
    for i := 0 to |rows|
      invariant cpuEnergy == CpuEnergySum(rows[..i])
      invariant memEnergy == DramEnergySum(rows[..i])
    {
      assert rows[..i + 1][..i] == rows[..i];
      cpuEnergy := cpuEnergy + rows[i].cpuEnergy;
      memEnergy := memEnergy + rows[i].dramEnergy;
    }
    assert rows[..|rows|] == rows;
  }

  /**
   * The loop over the docker stats log and the two divisions after it: the
   * mean CPU utilisation per core, the mean memory utilisation, and the
   * largest running sum of memory utilisation, each mean taken over the row
   * count plus the offset.
   */
  method DockerUtilisation(rows: seq<DockerRow>, numCpus: nat) returns (cpuUtil: real, memUtil: real, maxMemUtil: real)
    requires numCpus >= 1
    ensures cpuUtil == CpuUtil(rows, numCpus)
    ensures memUtil == MemUtil(rows)
    ensures maxMemUtil == PeakMemFraction(rows)
  {
    cpuUtil, memUtil, maxMemUtil := 0.0, 0.0, 0.0;
    var numRows := RowOffset;
    for i := 0 to |rows|
      invariant numRows == i as real + RowOffset
      invariant cpuUtil == CpuFractionSum(rows[..i])
      invariant memUtil == MemFractionSum(rows[..i])
      invariant maxMemUtil == PeakMemFraction(rows[..i])
    {
      assert rows[..i + 1][..i] == rows[..i];
      numRows := numRows + 1.0;
      cpuUtil := cpuUtil + rows[i].cpuPercent / 100.0;
      memUtil := memUtil + rows[i].memPercent / 100.0;
      maxMemUtil := Max(maxMemUtil, memUtil);
    }
    assert rows[..|rows|] == rows;
    cpuUtil := cpuUtil / numRows / (numCpus as real);
    memUtil := memUtil / numRows;
  }

  // ---------------------------------------------------------------------
  // The summary
  // ---------------------------------------------------------------------

  /**
   * The reported figures: CPU and DRAM energy scaled by the utilisation
   * means, the total of the three energies, the memory peak in GiB and the
   * throughput, which fails for an elapsed time of zero.
   */
  function Summary(gpu: seq<GpuRow>, cpu: seq<CpuRow>, docker: seq<DockerRow>, numCpus: nat,
                   memTotalKib: real, numInstances: nat, startTime: real, endTime: real): Result<Report, AggregateError>
    requires numCpus >= 1
  {
    var timeElapsed := endTime - startTime;
    if timeElapsed == 0.0 then Err(ZeroDivisionError)
    else
      var cpuEnergy, memEnergy := CpuShare(cpu, docker, numCpus), MemShare(cpu, docker);
      Ok(Report(
        timeElapsed,
        Throughput(numInstances, timeElapsed),
        GpuEnergySum(gpu),
        cpuEnergy,
        memEnergy,
        GpuEnergySum(gpu) + cpuEnergy + memEnergy,
        DramPeak(docker, memTotalKib),
        GpuMemSum(gpu)))
  }

  /** The raw CPU energy scaled by the mean CPU utilisation per core. */
  function CpuShare(cpu: seq<CpuRow>, docker: seq<DockerRow>, numCpus: nat): real
    requires numCpus >= 1
  {
    CpuEnergySum(cpu) * CpuUtil(docker, numCpus)
  }

  /** The raw DRAM energy scaled by the mean memory utilisation. */
  function MemShare(cpu: seq<CpuRow>, docker: seq<DockerRow>): real {
    DramEnergySum(cpu) * MemUtil(docker)
  }

  /** The memory peak in GiB: the peak fraction times `MemTotal` converted from KiB. */
  function DramPeak(docker: seq<DockerRow>, memTotalKib: real): real {
    PeakMemFraction(docker) * (memTotalKib / KibPerGib)
  }

  function Throughput(numInstances: nat, timeElapsed: real): real
    requires timeElapsed != 0.0
  {
    (numInstances as real) / timeElapsed
  }

  /**
   * The aggregation after the run: the three reading loops, the in-place
   * rescaling of the energies by utilisation, and the reported figures.
   * The clock readings, the `MemTotal` figure in KiB and the instance count
   * are parameters.
   */
  method Aggregate(gpu: seq<GpuRow>, cpu: seq<CpuRow>, docker: seq<DockerRow>, numCpus: nat,
                   memTotalKib: real, numInstances: nat, startTime: real, endTime: real)
    returns (r: Result<Report, AggregateError>)
    requires numCpus >= 1
    ensures r == Summary(gpu, cpu, docker, numCpus, memTotalKib, numInstances, startTime, endTime)
  {
    var gpuEnergy, maxGpuMem := SumGpuLog(gpu);
    var cpuEnergy, memEnergy := SumCpuLog(cpu);
    var cpuUtil, memUtil, maxMemUtil := DockerUtilisation(docker, numCpus);
    cpuEnergy := cpuEnergy * cpuUtil;
    memEnergy := memEnergy * memUtil;
    var totalMemory := memTotalKib / KibPerGib;
    var timeElapsed := endTime - startTime;
    if timeElapsed == 0.0 {
      return Err(ZeroDivisionError);
    }
    var throughput := (numInstances as real) / timeElapsed;
    r := Ok(Report(timeElapsed, throughput, gpuEnergy, cpuEnergy, memEnergy,
                   gpuEnergy + cpuEnergy + memEnergy, maxMemUtil * totalMemory, maxGpuMem));
    ghost var expected := Summary(gpu, cpu, docker, numCpus, memTotalKib, numInstances, startTime, endTime).value;
    assert expected.timeElapsed == timeElapsed && expected.throughput == throughput;
    assert expected.gpuEnergy == gpuEnergy && expected.maxGpuMem == maxGpuMem;
    assert expected.cpuEnergy == cpuEnergy && expected.memEnergy == memEnergy;
    assert expected.totalEnergy == r.value.totalEnergy && expected.maxDramGib == r.value.maxDramGib;
  }

  // ---------------------------------------------------------------------
  // Properties
  // ---------------------------------------------------------------------

  /** The running maximum is at least every prefix sum, and it is 0 or one of them. */
  lemma {:induction false} PeakBoundsPrefixes(rows: seq<DockerRow>)
    ensures forall k :: 0 <= k <= |rows| ==> MemFractionSum(rows[..k]) <= PeakMemFraction(rows)
    ensures PeakMemFraction(rows) == 0.0 || exists k :: 0 < k <= |rows| && PeakMemFraction(rows) == MemFractionSum(rows[..k])
  {
    if |rows| > 0 {
      var n := |rows| - 1;
      PeakBoundsPrefixes(rows[..n]);
      forall k | 0 <= k <= |rows|
        ensures MemFractionSum(rows[..k]) <= PeakMemFraction(rows)
      {
        if k <= n {
          assert rows[..n][..k] == rows[..k];
        } else {
          assert rows[..k] == rows;
        }
      }
      if PeakMemFraction(rows) == PeakMemFraction(rows[..n]) && PeakMemFraction(rows) != 0.0 {
        var k :| 0 < k <= n && PeakMemFraction(rows[..n]) == MemFractionSum(rows[..n][..k]);
        assert rows[..n][..k] == rows[..k];
      } else if PeakMemFraction(rows) != 0.0 {
        assert rows[..|rows|] == rows;
      }
    }
  }

  /** Readings that are never negative. */
  predicate NonNegativeMemory(rows: seq<DockerRow>) {
    forall k :: 0 <= k < |rows| ==> rows[k].memPercent >= 0.0
  }

  /** With non-negative readings the running sums only grow, so the peak is the total and bounds every reading. */
  lemma {:induction false} PeakIsTotal(rows: seq<DockerRow>)
    requires NonNegativeMemory(rows)
    ensures PeakMemFraction(rows) == MemFractionSum(rows)
    ensures forall k :: 0 <= k < |rows| ==> rows[k].memPercent / 100.0 <= PeakMemFraction(rows)
  {
    if |rows| > 0 {
      var n := |rows| - 1;
      assert NonNegativeMemory(rows[..n]) by {
        forall k | 0 <= k < n ensures rows[..n][k].memPercent >= 0.0 {
          assert rows[..n][k] == rows[k];
        }
      }
      PeakIsTotal(rows[..n]);
      MemFractionNonNegative(rows[..n]);
      forall k | 0 <= k < |rows|
        ensures rows[k].memPercent / 100.0 <= PeakMemFraction(rows)
      {
        if k < n {
          assert rows[..n][k] == rows[k];
        }
      }
    }
  }

  /** Non-negative readings sum to a non-negative fraction. */
  lemma {:induction false} MemFractionNonNegative(rows: seq<DockerRow>)
    requires NonNegativeMemory(rows)
    ensures MemFractionSum(rows) >= 0.0
  {
    if |rows| > 0 {
      var n := |rows| - 1;
      assert NonNegativeMemory(rows[..n]) by {
        forall k | 0 <= k < n ensures rows[..n][k].memPercent >= 0.0 {
          assert rows[..n][k] == rows[k];
        }
      }
      MemFractionNonNegative(rows[..n]);
    }
  }

  /** Docker readings that are never negative. */
  predicate NonNegativeReadings(rows: seq<DockerRow>) {
    forall k :: 0 <= k < |rows| ==> rows[k].cpuPercent >= 0.0 && rows[k].memPercent >= 0.0
  }

  /**
   * Readings as docker reports them: the CPU figure counts in percent of one
   * core, so it reaches at most 100 per core of the machine, and the memory
   * figure is a percentage of the whole memory.
   */
  predicate PercentReadings(rows: seq<DockerRow>, numCpus: nat) {
    forall k :: 0 <= k < |rows| ==>
      0.0 <= rows[k].cpuPercent <= 100.0 * (numCpus as real) && 0.0 <= rows[k].memPercent <= 100.0
  }

  /** Non-negative readings sum to non-negative fractions. */
  lemma {:induction false} FractionSumsNonNegative(rows: seq<DockerRow>)
    requires NonNegativeReadings(rows)
    ensures CpuFractionSum(rows) >= 0.0 && MemFractionSum(rows) >= 0.0
  {
    if |rows| > 0 {
      var n := |rows| - 1;
      assert NonNegativeReadings(rows[..n]) by {
        forall k | 0 <= k < n ensures rows[..n][k] == rows[k] {
        }
      }
      FractionSumsNonNegative(rows[..n]);
    }
  }

  /** Each row adds at most `numCpus` to the CPU fraction sum and at most one to the memory fraction sum. */
  lemma {:induction false} FractionSumsBounded(rows: seq<DockerRow>, numCpus: nat)
    requires PercentReadings(rows, numCpus)
    ensures 0.0 <= CpuFractionSum(rows) <= (|rows| as real) * (numCpus as real)
    ensures 0.0 <= MemFractionSum(rows) <= |rows| as real
  {
    if |rows| > 0 {
      var n := |rows| - 1;
      assert PercentReadings(rows[..n], numCpus) by {
        forall k | 0 <= k < n ensures rows[..n][k] == rows[k] {
        }
      }
      FractionSumsBounded(rows[..n], numCpus);
      assert (n as real + 1.0) * (numCpus as real) == (n as real) * (numCpus as real) + numCpus as real;
    }
  }

  /** Non-negative readings give non-negative utilisation means. */
  lemma UtilisationNonNegative(rows: seq<DockerRow>, numCpus: nat)
    requires numCpus >= 1 && NonNegativeReadings(rows)
    ensures CpuUtil(rows, numCpus) >= 0.0 && MemUtil(rows) >= 0.0
  {
    var n := |rows| as real + RowOffset;
    FractionSumsNonNegative(rows);
    DivNonNegative(CpuFractionSum(rows), n);
    DivNonNegative(CpuFractionSum(rows) / n, numCpus as real);
    DivNonNegative(MemFractionSum(rows), n);
  }

  /** With readings as docker reports them, both utilisation means are in [0, 1). */
  lemma UtilisationBounds(rows: seq<DockerRow>, numCpus: nat)
    requires numCpus >= 1 && PercentReadings(rows, numCpus)
    ensures 0.0 <= CpuUtil(rows, numCpus) < 1.0
    ensures 0.0 <= MemUtil(rows) < 1.0
  {
    var n := |rows| as real + RowOffset;
    var c := numCpus as real;
    FractionSumsBounded(rows, numCpus);
    assert n * c == (|rows| as real) * c + RowOffset * c;
    DivBelow(CpuFractionSum(rows), c, n);
    DivBelow(CpuFractionSum(rows) / n, 1.0, c);
    DivBelow(MemFractionSum(rows), 1.0, n);
  }

  /** An empty docker log gives utilisation means of 0 and a memory peak of 0. */
  lemma NoRowsUtilisation(numCpus: nat)
    requires numCpus >= 1
    ensures CpuUtil([], numCpus) == 0.0 && MemUtil([]) == 0.0 && PeakMemFraction([]) == 0.0
  {
  }

  /** The running maximum starts from 0, so it is never negative. */
  lemma {:induction false} PeakNonNegative(rows: seq<DockerRow>)
    ensures PeakMemFraction(rows) >= 0.0
  {
    if |rows| > 0 {
      PeakNonNegative(rows[..|rows| - 1]);
    }
  }

  /** No docker rows: nothing is apportioned to the CPU or the DRAM, and the memory peak is 0. */
  lemma SummaryNoDockerRows(gpu: seq<GpuRow>, cpu: seq<CpuRow>, numCpus: nat,
                            memTotalKib: real, numInstances: nat, startTime: real, endTime: real)
    requires numCpus >= 1
    requires Summary(gpu, cpu, [], numCpus, memTotalKib, numInstances, startTime, endTime).Ok?
    ensures var rep := Summary(gpu, cpu, [], numCpus, memTotalKib, numInstances, startTime, endTime).value;
      rep.cpuEnergy == 0.0 && rep.memEnergy == 0.0 && rep.maxDramGib == 0.0 && rep.totalEnergy == rep.gpuEnergy
  {
  }

  /** The summary fails exactly when no time has elapsed. */
  lemma SummaryFails(gpu: seq<GpuRow>, cpu: seq<CpuRow>, docker: seq<DockerRow>, numCpus: nat,
                     memTotalKib: real, numInstances: nat, startTime: real, endTime: real)
    requires numCpus >= 1
    ensures Summary(gpu, cpu, docker, numCpus, memTotalKib, numInstances, startTime, endTime).Err? <==> endTime == startTime
  {
  }

  /** Energy readings that are never negative. */
  predicate NonNegativeEnergy(gpu: seq<GpuRow>, cpu: seq<CpuRow>) {
    && (forall k :: 0 <= k < |gpu| ==> gpu[k].energy >= 0.0)
    && (forall k :: 0 <= k < |cpu| ==> cpu[k].cpuEnergy >= 0.0 && cpu[k].dramEnergy >= 0.0)
  }

  lemma {:induction false} GpuEnergyNonNegative(gpu: seq<GpuRow>)
    requires forall k :: 0 <= k < |gpu| ==> gpu[k].energy >= 0.0
    ensures GpuEnergySum(gpu) >= 0.0
  {
    if |gpu| > 0 {
      var n := |gpu| - 1;
      assert forall k :: 0 <= k < n ==> gpu[..n][k] == gpu[k];
      GpuEnergyNonNegative(gpu[..n]);
    }
  }

  lemma {:induction false} CpuEnergiesNonNegative(cpu: seq<CpuRow>)
    requires forall k :: 0 <= k < |cpu| ==> cpu[k].cpuEnergy >= 0.0 && cpu[k].dramEnergy >= 0.0
    ensures CpuEnergySum(cpu) >= 0.0 && DramEnergySum(cpu) >= 0.0
  {
    if |cpu| > 0 {
      var n := |cpu| - 1;
      assert forall k :: 0 <= k < n ==> cpu[..n][k] == cpu[k];
      CpuEnergiesNonNegative(cpu[..n]);
    }
  }

  /** Scaling by a utilisation in [0, 1) keeps an energy non-negative and never increases it. */
  lemma ShareBounds(cpu: seq<CpuRow>, docker: seq<DockerRow>, numCpus: nat)
    requires numCpus >= 1 && PercentReadings(docker, numCpus)
    requires forall k :: 0 <= k < |cpu| ==> cpu[k].cpuEnergy >= 0.0 && cpu[k].dramEnergy >= 0.0
    ensures 0.0 <= CpuShare(cpu, docker, numCpus) <= CpuEnergySum(cpu)
    ensures 0.0 <= MemShare(cpu, docker) <= DramEnergySum(cpu)
  {
    UtilisationBounds(docker, numCpus);
    CpuEnergiesNonNegative(cpu);
    MulBelow(CpuEnergySum(cpu), CpuUtil(docker, numCpus));
    MulBelow(DramEnergySum(cpu), MemUtil(docker));
  }

  /**
   * With non-negative energies and readings, every reported energy, the
   * throughput once time has advanced and, for a non-negative memory size,
   * the DRAM peak are non-negative.
   */
  lemma SummaryNonNegative(gpu: seq<GpuRow>, cpu: seq<CpuRow>, docker: seq<DockerRow>, numCpus: nat,
                           memTotalKib: real, numInstances: nat, startTime: real, endTime: real)
    requires numCpus >= 1
    requires NonNegativeEnergy(gpu, cpu) && NonNegativeReadings(docker)
    requires endTime > startTime
    ensures var r := Summary(gpu, cpu, docker, numCpus, memTotalKib, numInstances, startTime, endTime);
      && r.Ok?
      && r.value.gpuEnergy >= 0.0
      && r.value.cpuEnergy >= 0.0
      && r.value.memEnergy >= 0.0
      && r.value.totalEnergy >= 0.0
      && r.value.throughput >= 0.0
      && (memTotalKib >= 0.0 ==> r.value.maxDramGib >= 0.0)
  {
    GpuEnergyNonNegative(gpu);
    CpuEnergiesNonNegative(cpu);
    UtilisationNonNegative(docker, numCpus);
    MulNonNegative(CpuEnergySum(cpu), CpuUtil(docker, numCpus));
    MulNonNegative(DramEnergySum(cpu), MemUtil(docker));
    PeakNonNegative(docker);
    if memTotalKib >= 0.0 {
      DivNonNegative(memTotalKib, KibPerGib);
      MulNonNegative(PeakMemFraction(docker), memTotalKib / KibPerGib);
    }
    DivNonNegative(numInstances as real, endTime - startTime);
  }

  /**
   * With non-negative energies and readings as docker reports them, the
   * apportioned CPU and DRAM energies are non-negative and never exceed the
   * raw energies they come from, the total is non-negative, and so is the
   * throughput once time has advanced.
   */
  lemma SummaryBounds(gpu: seq<GpuRow>, cpu: seq<CpuRow>, docker: seq<DockerRow>, numCpus: nat,
                      memTotalKib: real, numInstances: nat, startTime: real, endTime: real)
    requires numCpus >= 1
    requires NonNegativeEnergy(gpu, cpu) && PercentReadings(docker, numCpus)
    requires endTime > startTime
    ensures var r := Summary(gpu, cpu, docker, numCpus, memTotalKib, numInstances, startTime, endTime);
      && r.Ok?
      && 0.0 <= r.value.cpuEnergy <= CpuEnergySum(cpu)
      && 0.0 <= r.value.memEnergy <= DramEnergySum(cpu)
      && r.value.totalEnergy >= 0.0
      && r.value.throughput >= 0.0
  {
    GpuEnergyNonNegative(gpu);
    ShareBounds(cpu, docker, numCpus);
    DivNonNegative(numInstances as real, endTime - startTime);
  }

  /** With non-negative memory readings, the reported DRAM peak is the summed memory fraction scaled to GiB. */
  lemma SummaryDramPeak(gpu: seq<GpuRow>, cpu: seq<CpuRow>, docker: seq<DockerRow>, numCpus: nat,
                        memTotalKib: real, numInstances: nat, startTime: real, endTime: real)
    requires numCpus >= 1 && NonNegativeMemory(docker)
    requires Summary(gpu, cpu, docker, numCpus, memTotalKib, numInstances, startTime, endTime).Ok?
    ensures Summary(gpu, cpu, docker, numCpus, memTotalKib, numInstances, startTime, endTime).value.maxDramGib
      == MemFractionSum(docker) * (memTotalKib / KibPerGib)
  {
    PeakIsTotal(docker);
  }

  /** The reported GPU memory of two rows is their sum, larger than either row. */
  lemma GpuMemorySummed()
    ensures GpuMemSum([GpuRow(0.0, 2.0), GpuRow(0.0, 3.0)]) == 5.0
  {
    var rows := [GpuRow(0.0, 2.0), GpuRow(0.0, 3.0)];
    assert rows[..1] == [GpuRow(0.0, 2.0)];
    assert rows[..1][..0] == [];
  }

  /**
   * CPU energies 10 and 20, DRAM energies 5 and 5, and two docker rows at
   * 50% CPU and 20% memory on one core: the row offset makes the
   * apportioned CPU energy 30 / 2.000001, just under 15.
   */
  lemma ApportionedExample()
    ensures var cpu, docker := [CpuRow(10.0, 5.0), CpuRow(20.0, 5.0)], [DockerRow(50.0, 20.0), DockerRow(50.0, 20.0)];
      && CpuShare(cpu, docker, 1) == 30.0 / 2.000001
      && MemShare(cpu, docker) == 4.0 / 2.000001
      && CpuShare(cpu, docker, 1) < 15.0
  {
    var cpu, docker := [CpuRow(10.0, 5.0), CpuRow(20.0, 5.0)], [DockerRow(50.0, 20.0), DockerRow(50.0, 20.0)];
    assert cpu[..1] == [CpuRow(10.0, 5.0)] && cpu[..1][..0] == [];
    assert docker[..1] == [DockerRow(50.0, 20.0)] && docker[..1][..0] == [];
    assert CpuEnergySum(cpu) == 30.0 && DramEnergySum(cpu) == 10.0;
    assert CpuFractionSum(docker) == 1.0 && MemFractionSum(docker) == 0.4;
  }
}
