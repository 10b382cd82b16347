/** Resource quotas as the strings that are written into a namespace's annotation, and the numbers read back. */
module QuotaFormat {
  import opened Wrappers
  import opened Decimals
  import opened Integers

  /******* Quantities *******/

  const MEBI := 0x10_0000
  const GIBI := 0x4000_0000

  predicate EndsWith(s: string, suffix: string) {
    |suffix| <= |s| && s[|s| - |suffix|..] == suffix
  }

  /** A quantity is kept in thousandths. */
  function Scaled(digits: string, scale: int): Option<int> {
    match ParseInt(digits)
    case Some(n) => Some(n * scale)
    case None => None
  }

  function ParseQuantity(s: string): Option<int> {
    if EndsWith(s, "m") then Scaled(s[..|s| - 1], 1)
    else if EndsWith(s, "Mi") then Scaled(s[..|s| - 2], MEBI * 1000)
    else if EndsWith(s, "Gi") then Scaled(s[..|s| - 2], GIBI * 1000)
    else Scaled(s, 1000)
  }

  /** The quantity in whole units, rounded away from zero. */
  function Value(thousandths: int): int {
    if thousandths >= 0 then (thousandths + 999) / 1000 else -((-thousandths + 999) / 1000)
  }

  /** Division that truncates toward zero. */
  function Quotient(n: int, d: int): int
    requires d > 0
  {
    if n >= 0 then n / d else -(-n / d)
  }

  /******* Writing and reading *******/

  /** The limits in the annotation of a prepared workspace. */
  function Limits(cpus: int, memory: int, storage: int): map<string, string> {
    map["requestsCpu" := Printed(cpus) + "m",
        "requestsMemory" := Printed(memory) + "Mi",
        "requestsStorage" := Printed(storage) + "Gi",
        "limitsCpu" := Printed(cpus) + "m",
        "limitsMemory" := Printed(memory) + "Mi",
        "persistentVolumeClaims" := "10"]
  }

  datatype Quota = Quota(cpuRequest: int, cpuLimit: int, memoryRequest: int, memoryLimit: int,
                         persistentVolumeClaims: int, storageRequest: int)

  /** A key that is absent reads as the empty string, which is no quantity. */
  function Lookup(rq: map<string, string>, key: string): string {
    if key in rq then rq[key] else ""
  }

  function CpuField(s: string): int {
    match ParseQuantity(s)
    case Some(q) => WrapInt32(WrapInt32(Value(q)) * 1000)
    case None => 0
  }

  function MemoryField(s: string): int {
    match ParseQuantity(s)
    case Some(q) => WrapInt32(Quotient(Value(q), MEBI))
    case None => 0
  }

  function StorageField(s: string): int {
    match ParseQuantity(s)
    case Some(q) => WrapUint32(Quotient(Value(q), GIBI))
    case None => 0
  }

  function CountField(s: string): int {
    match ParseQuantity(s)
    case Some(q) => WrapInt32(Value(q))
    case None => 0
  }

  method FormatQuotas(rq: map<string, string>) returns (quota: Quota)
    ensures quota == Quota(CpuField(Lookup(rq, "requestsCpu")), CpuField(Lookup(rq, "limitsCpu")),
                           MemoryField(Lookup(rq, "requestsMemory")), MemoryField(Lookup(rq, "limitsMemory")),
                           CountField(Lookup(rq, "persistentVolumeClaims")),
                           StorageField(Lookup(rq, "requestsStorage")))
  {
    quota := Quota(0, 0, 0, 0, 0, 0);
    var q := ParseQuantity(Lookup(rq, "requestsCpu"));
    if q.Some? {
      quota := quota.(cpuRequest := WrapInt32(WrapInt32(Value(q.value)) * 1000));
    }
    q := ParseQuantity(Lookup(rq, "limitsCpu"));
    if q.Some? {
      quota := quota.(cpuLimit := WrapInt32(WrapInt32(Value(q.value)) * 1000));
    }
    q := ParseQuantity(Lookup(rq, "limitsMemory"));
    if q.Some? {
      quota := quota.(memoryLimit := WrapInt32(Quotient(Value(q.value), MEBI)));
    }
    q := ParseQuantity(Lookup(rq, "requestsMemory"));
    if q.Some? {
      quota := quota.(memoryRequest := WrapInt32(Quotient(Value(q.value), MEBI)));
    }
    q := ParseQuantity(Lookup(rq, "requestsStorage"));
    if q.Some? {
      quota := quota.(storageRequest := WrapUint32(Quotient(Value(q.value), GIBI)));
    }
    q := ParseQuantity(Lookup(rq, "persistentVolumeClaims"));
    if q.Some? {
      quota := quota.(persistentVolumeClaims := WrapInt32(Value(q.value)));
    }
  }

  /******* Round trip *******/

  /** In thousandths, `m` stands for one, `Mi` for 1024 * 1024 units and `Gi` for 1024 times that. */
  lemma PrintedQuantity(n: int, suffix: string, scale: int)
    requires || (suffix == "m" && scale == 1) || (suffix == "Mi" && scale == 1024 * 1024 * 1000)
             || (suffix == "Gi" && scale == 1024 * 1024 * 1024 * 1000)
    ensures ParseQuantity(Printed(n) + suffix) == Some(n * scale)
  {
    var s := Printed(n) + suffix;
    ParsePrintedInt(n);
    assert s[..|s| - |suffix|] == Printed(n);
    assert EndsWith(s, suffix) by {
      assert s[|s| - |suffix|..] == suffix;
    }
    if suffix != "m" {
      assert !EndsWith(s, "m") by {
        assert s[|s| - 1..][0] == suffix[1] == 'i';
      }
    }
    if suffix == "Gi" {
      assert !EndsWith(s, "Mi") by {
        assert s[|s| - 2..][0] == 'G';
      }
    }
  }

  /** `x` is the least multiple of 1000 that is not below `n`. */
  predicate IsRoundedUp(x: int, n: int) {
    x % 1000 == 0 && n <= x < n + 1000
  }

  /** The range in which the printed CPU quota is read back rounded up; above it the field overflows, and below zero
      it is rounded down instead. */
  predicate CpuInRange(cpus: int) {
    0 <= cpus <= 2147483000 || (cpus < 0 && cpus % 1000 == 0)
  }

  lemma CpuRounding(cpus: int)
    requires IsInt32(cpus)
    ensures IsRoundedUp(WrapInt32(WrapInt32(Value(cpus)) * 1000), cpus) <==> CpuInRange(cpus)
  {
    var v := Value(cpus);
    assert WrapInt32(v) == v;
    if -2147483 <= v <= 2147483 {
      assert WrapInt32(v * 1000) == v * 1000;
    } else if v > 0 {
      assert v == 2147484 && WrapInt32(v * 1000) == v * 1000 - 0x1_0000_0000;
    } else {
      assert v == -2147484 && WrapInt32(v * 1000) == v * 1000 + 0x1_0000_0000;
    }
  }

  lemma CpuRoundTrip(cpus: int)
    requires IsInt32(cpus)
    ensures IsRoundedUp(CpuField(Printed(cpus) + "m"), cpus) <==> CpuInRange(cpus)
  {
    hide WrapInt32, Value, IsRoundedUp, CpuInRange;
    PrintedQuantity(cpus, "m", 1);
    CpuRounding(cpus);
  }

  /** Above the bound the field overflows, to the same number whatever the quota. */
  lemma CpuOverflow(cpus: int)
    requires IsInt32(cpus) && cpus > 2147483000
    ensures CpuField(Printed(cpus) + "m") == -2147483296
  {
    PrintedQuantity(cpus, "m", 1);
    assert Value(cpus) == 2147484;
  }

  /** One millicore above the bound is not read back rounded up. */
  lemma CpuOverflowExample() returns (cpus: int)
    ensures cpus == 2147483001 && !IsRoundedUp(CpuField(Printed(cpus) + "m"), cpus)
  {
    hide CpuField, Printed;
    cpus := 2147483001;
    CpuOverflow(cpus);
  }

  lemma ExactMebi(n: int)
    ensures Quotient(Value(n * (MEBI * 1000)), MEBI) == n
  {
  }

  lemma ExactGibi(n: int)
    ensures Quotient(Value(n * (GIBI * 1000)), GIBI) == n
  {
  }

  lemma MemoryRoundTrip(memory: int)
    requires IsInt32(memory)
    ensures MemoryField(Printed(memory) + "Mi") == memory
  {
    PrintedQuantity(memory, "Mi", MEBI * 1000);
    ExactMebi(memory);
  }

  lemma StorageRoundTrip(storage: int)
    requires IsInt32(storage)
    ensures StorageField(Printed(storage) + "Gi") == storage <==> storage >= 0
  {
    PrintedQuantity(storage, "Gi", GIBI * 1000);
    ExactGibi(storage);
  }

  /** Reading the limits of a prepared workspace gives its quota back, with the CPUs rounded up to whole ones, exactly
      when nothing overflows. */
  lemma QuotaRoundTrip(cpus: int, memory: int, storage: int)
    requires IsInt32(cpus) && IsInt32(memory) && IsInt32(storage)
    ensures var rq := Limits(cpus, memory, storage);
            && MemoryField(Lookup(rq, "requestsMemory")) == MemoryField(Lookup(rq, "limitsMemory")) == memory
            && (StorageField(Lookup(rq, "requestsStorage")) == storage <==> storage >= 0)
            && (IsRoundedUp(CpuField(Lookup(rq, "requestsCpu")), cpus) <==> CpuInRange(cpus))
            && CpuField(Lookup(rq, "limitsCpu")) == CpuField(Lookup(rq, "requestsCpu"))
            && CountField(Lookup(rq, "persistentVolumeClaims")) == 10
  {
    hide CpuField, MemoryField, StorageField, CountField, IsRoundedUp;
    MemoryRoundTrip(memory);
    StorageRoundTrip(storage);
    CpuRoundTrip(cpus);
    TenClaims();
  }

  lemma TenClaims()
    ensures CountField("10") == 10
  {
    TenDigits();
    assert "10"[1] == '0';
    assert "10"[0..][0] == '1';
  }

  lemma TenDigits()
    ensures ParseInt("10") == Some(10)
  {
    assert "1"[..0] == "" && "10"[..1] == "1";
    assert DigitsValue("1") == 1;
    assert DigitsValue("10") == 10;
  }
}
