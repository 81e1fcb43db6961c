/** The power and log tables of the QR encoder, built and read as arrays. */
module QrMath {
  import opened Wrappers
  import opened Galois

  class Tables {
    const exp: array<bv8>
    const log: array<nat>

    ghost predicate Valid()
      reads this, exp, log
    {
      && exp.Length == 256 && log.Length == 256
      && (forall i :: 0 <= i < 256 ==> exp[i] == Exp(i))
      && (forall n: bv8 :: n != 0 ==> log[n as int] == Log(n))
    }

    constructor ()
      ensures Valid() && fresh(exp) && fresh(log)
    {
      exp := new bv8[256];
      log := new nat[256];
      new;
      FillExp();
      FillLog();
    }

    method FillExp()
      requires exp.Length == 256
      modifies exp
      ensures forall i :: 0 <= i < 256 ==> exp[i] == Exp(i)
    {
      hide Exp, Add;
      for i := 0 to 8
        invariant forall j :: 0 <= j < i ==> exp[j] == Exp(j)
      {
        ExpLow(i);
        exp[i] := 1 << i;
      }
      for i := 8 to 256
        invariant forall j :: 0 <= j < i ==> exp[j] == Exp(j)
      {
        ExpUnfold(i);
        exp[i] := Add(Add(Add(exp[i - 4], exp[i - 5]), exp[i - 6]), exp[i - 8]);
      }
    }

    // Each power writes its exponent; together the powers reach every nonzero
    // byte, and none is written twice.
    method FillLog()
      requires exp.Length == 256 && log.Length == 256 && exp as object != log as object
      requires forall i :: 0 <= i < 256 ==> exp[i] == Exp(i)
      modifies log
      ensures Valid()
    {
      hide Exp;
      for i := 0 to 255
        invariant forall n: bv8 :: n != 0 && Log(n) < i ==> log[n as int] == Log(n)
      {
        LogOfPower(i);
        log[exp[i] as int] := i;
        forall n: bv8 | n != 0 && Log(n) < i + 1 ensures log[n as int] == Log(n) {
          if Log(n) == i {
            assert n == exp[i];
          } else if n as int == exp[i] as int {
            ByteValue(n, exp[i]);
          }
        }
      }
    }

    // glog throws below 1.
    method Glog(n: bv8) returns (r: Option<nat>)
      requires Valid()
      ensures r == if n == 0 then None else Some(Log(n))
    {
      if n < 1 {
        r := None;
      } else {
        r := Some(log[n as int]);
      }
    }

    // Brings any exponent into the table by steps of 255.
    method Gexp(k: int) returns (r: bv8)
      requires Valid()
      ensures r == GExp(k)
    {
      hide Exp;
      var n := k;
      while n < 0
        invariant n % 255 == k % 255
      {
        n := n + 255;
      }
      while n >= 256
        invariant 0 <= n && n % 255 == k % 255
      {
        n := n - 255;
      }
      GExpStep(n);
      r := exp[n];
    }
  }
}
