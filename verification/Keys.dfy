/** Storage keys "task:<status>:<zero-padded seconds>:<id>": how they are written, read back and ordered. */
module Keys {
  import opened Tasks
  import opened ByteOrder

  const KEY_PREFIX: string := "task:"

  predicate ColonFree(s: string) {
    forall i :: 0 <= i < |s| ==> s[i] != ':'
  }

  function Digit(n: nat): char
    requires n < 10
  {
    ['0', '1', '2', '3', '4', '5', '6', '7', '8', '9'][n]
  }

  function Decimal(n: nat): string {
    if n < 10 then [Digit(n)] else Decimal(n / 10) + [Digit(n % 10)]
  }

  function Zeros(n: nat): string {
    if n == 0 then "" else Zeros(n - 1) + "0"
  }

  function Padded(n: nat, width: nat): string {
    var d := Decimal(n);
    if |d| < width then Zeros(width - |d|) + d else d
  }

  /** The verb %016d: the sign, if any, counts towards the width. */
  function Pad16(n: int): string {
    if n >= 0 then Padded(n, 16) else "-" + Padded(-n, 15)
  }

  function StatusPrefix(name: string): string {
    KEY_PREFIX + name + ":"
  }

  function TaskKey(t: Task): string {
    StatusPrefix(t.status.Name()) + Pad16(Unix(t.executeAt)) + ":" + t.id
  }

  // ---- reading a key back

  function IndexOfColon(s: string): (i: nat)
    ensures i <= |s| && (i < |s| ==> s[i] == ':') && ColonFree(s[..i])
  {
    if s == "" then 0 else if s[0] == ':' then 0 else 1 + IndexOfColon(s[1..])
  }

  function SplitN(s: string, n: nat): seq<string>
    requires n >= 1
  {
    var i := IndexOfColon(s);
    if n == 1 || i == |s| then [s] else [s[..i]] + SplitN(s[i + 1..], n - 1)
  }

  predicate IsDigit(c: char) {
    '0' <= c <= '9'
  }

  predicate AllDigits(s: string) {
    forall i :: 0 <= i < |s| ==> IsDigit(s[i])
  }

  function DigitsValue(s: string): nat
    requires AllDigits(s)
  {
    if s == "" then 0 else 10 * DigitsValue(s[..|s| - 1]) + (s[|s| - 1] as int - '0' as int)
  }

  predicate IsInt64(n: int) {
    -0x8000_0000_0000_0000 <= n < 0x8000_0000_0000_0000
  }

  /** Base-10 parsing of a signed 64-bit integer; anything else is an error. */
  function ParseInt(s: string): Option<int> {
    var signed := s != "" && (s[0] == '-' || s[0] == '+');
    var digits := if signed then s[1..] else s;
    if digits == "" || !AllDigits(digits) then
      None
    else
      var n: int := if signed && s[0] == '-' then -(DigitsValue(digits) as int) else DigitsValue(digits) as int;
      if IsInt64(n) then Some(n) else None
  }

  /** The status name and second a key carries, or None on a key that is not a task's. */
  function ParseKey(key: string): Option<(string, int)> {
    var parts := SplitN(key, 4);
    if |parts| != 4 || parts[0] != "task" then
      None
    else
      match ParseInt(parts[2])
      case None => None
      case Some(second) => Some((parts[1], second))
  }

  predicate HasSuffix(s: string, suffix: string) {
    |suffix| <= |s| && s[|s| - |suffix|..] == suffix
  }

  // ---- decimal digits

  lemma {:induction false} DecimalDigits(n: nat)
    ensures AllDigits(Decimal(n)) && Decimal(n) != "" && DigitsValue(Decimal(n)) == n
  {
    if n >= 10 {
      DecimalDigits(n / 10);
      assert Decimal(n)[..|Decimal(n)| - 1] == Decimal(n / 10);
    } else {
      assert Decimal(n)[..0] == "";
    }
  }

  lemma {:induction false} ZerosDigits(k: nat)
    ensures |Zeros(k)| == k && AllDigits(Zeros(k)) && DigitsValue(Zeros(k)) == 0
  {
    if k > 0 {
      ZerosDigits(k - 1);
      assert Zeros(k)[..k - 1] == Zeros(k - 1);
    }
  }

  lemma {:induction false} LeadingZeros(k: nat, d: string)
    requires AllDigits(d)
    ensures AllDigits(Zeros(k) + d) && DigitsValue(Zeros(k) + d) == DigitsValue(d)
  {
    ZerosDigits(k);
    if d == "" {
      assert Zeros(k) + d == Zeros(k);
    } else {
      LeadingZeros(k, d[..|d| - 1]);
      assert (Zeros(k) + d)[..k + |d| - 1] == Zeros(k) + d[..|d| - 1];
    }
  }

  /** Leading zeros bring a number to the width and change nothing else. */
  lemma ZeroPadded(d: string, value: nat, width: nat)
    requires AllDigits(d) && d != "" && DigitsValue(d) == value && |d| < width
    ensures var s := Zeros(width - |d|) + d; |s| == width && AllDigits(s) && DigitsValue(s) == value
  {
    LeadingZeros(width - |d|, d);
    ZerosDigits(width - |d|);
  }

  lemma PaddedDigits(n: nat, width: nat)
    ensures AllDigits(Padded(n, width)) && Padded(n, width) != "" && DigitsValue(Padded(n, width)) == n
    ensures |Decimal(n)| <= width ==> |Padded(n, width)| == width
  {
    DecimalDigits(n);
    if |Decimal(n)| < width {
      ZeroPadded(Decimal(n), n, width);
    }
  }

  function Pow10(k: nat): nat {
    if k == 0 then 1 else 10 * Pow10(k - 1)
  }

  lemma {:induction false} DecimalLength(n: nat, k: nat)
    requires k >= 1 && n < Pow10(k)
    ensures |Decimal(n)| <= k
  {
    if n >= 10 {
      DecimalLength(n / 10, k - 1);
    }
  }

  lemma Pad16Width(n: int)
    requires 0 <= n < 10_000_000_000_000_000
    ensures |Pad16(n)| == 16
  {
    assert Pow10(4) == 10_000;
    assert Pow10(8) == 100_000_000;
    assert Pow10(12) == 1_000_000_000_000;
    assert Pow10(16) == 10_000_000_000_000_000;
    DecimalLength(n, 16);
    PaddedDigits(n, 16);
  }

  lemma Pad16ColonFree(n: int)
    ensures ColonFree(Pad16(n)) && Pad16(n) != ""
  {
    PaddedDigits(if n >= 0 then n else -n, if n >= 0 then 16 else 15);
  }

  /** Between digit strings of one length, byte order is numeric order. */
  lemma {:induction false} DigitOrder(a: string, b: string)
    requires |a| == |b| && AllDigits(a) && AllDigits(b)
    ensures Less(a, b) <==> DigitsValue(a) < DigitsValue(b)
    ensures DigitsValue(a) == DigitsValue(b) ==> a == b
  {
    if a != "" {
      var n := |a| - 1;
      var x, y := a[n..], b[n..];
      assert a == a[..n] + x && b == b[..n] + y && x == [a[n]] && y == [b[n]];
      DigitOrder(a[..n], b[..n]);
      if a[..n] == b[..n] {
        SharedPrefix(a[..n], x, y);
      } else {
        HeadsDecide(a[..n], b[..n], x, y);
        Total(a[..n], b[..n]);
      }
    }
  }

  // ---- a key and its parts

  lemma {:induction false} FirstColon(a: string, rest: string)
    requires ColonFree(a)
    ensures IndexOfColon(a + ":" + rest) == |a|
  {
    var s := a + ":" + rest;
    if a == "" {
      assert s[0] == ':';
    } else {
      assert s[0] == a[0] && s[1..] == a[1..] + ":" + rest;
      FirstColon(a[1..], rest);
    }
  }

  lemma CutHead(a: string, rest: string, n: nat)
    requires ColonFree(a) && n >= 2
    ensures SplitN(a + ":" + rest, n) == [a] + SplitN(rest, n - 1)
  {
    var s := a + ":" + rest;
    FirstColon(a, rest);
    assert s[..|a|] == a && s[|a| + 1..] == rest;
  }

  lemma Regroup(name: string, pad: string, id: string)
    ensures StatusPrefix(name) + pad + ":" + id == "task" + ":" + (name + ":" + (pad + ":" + id))
    ensures StatusPrefix(name) + pad + ":" + id == StatusPrefix(name) + (pad + (":" + id))
  {
    assert KEY_PREFIX == "task" + ":";
  }

  lemma SplitTwo(c: string, d: string)
    requires ColonFree(c)
    ensures SplitN(c + ":" + d, 2) == [c, d]
  {
    CutHead(c, d, 2);
    assert SplitN(d, 1) == [d];
  }

  lemma SplitThree(b: string, c: string, d: string)
    requires ColonFree(b) && ColonFree(c)
    ensures SplitN(b + ":" + (c + ":" + d), 3) == [b, c, d]
  {
    CutHead(b, c + ":" + d, 3);
    SplitTwo(c, d);
  }

  lemma SplitFour(a: string, b: string, c: string, d: string)
    requires ColonFree(a) && ColonFree(b) && ColonFree(c)
    ensures SplitN(a + ":" + (b + ":" + (c + ":" + d)), 4) == [a, b, c, d]
  {
    CutHead(a, b + ":" + (c + ":" + d), 4);
    SplitThree(b, c, d);
  }

  lemma KeyParts(t: Task)
    ensures SplitN(TaskKey(t), 4) == ["task", t.status.Name(), Pad16(Unix(t.executeAt)), t.id]
  {
    Pad16ColonFree(Unix(t.executeAt));
    NamesColonFree(t.status);
    Regroup(t.status.Name(), Pad16(Unix(t.executeAt)), t.id);
    assert ColonFree("task");
    SplitFour("task", t.status.Name(), Pad16(Unix(t.executeAt)), t.id);
  }

  lemma ParseUnsigned(digits: string, n: nat)
    requires AllDigits(digits) && digits != "" && DigitsValue(digits) == n && IsInt64(n)
    ensures ParseInt(digits) == Some(n)
  {
    assert IsDigit(digits[0]);
  }

  lemma ParseSigned(digits: string, n: int)
    requires AllDigits(digits) && digits != "" && DigitsValue(digits) == n && IsInt64(-n)
    ensures ParseInt("-" + digits).Some? && ParseInt("-" + digits).value == -n
  {
    assert ("-" + digits)[1..] == digits;
  }

  lemma ParsePad16(n: int)
    requires IsInt64(n)
    ensures ParseInt(Pad16(n)) == Some(n)
  {
    if n >= 0 {
      PaddedDigits(n, 16);
      ParseUnsigned(Padded(n, 16), n);
    } else {
      PaddedDigits(-n, 15);
      ParseSigned(Padded(-n, 15), -n);
    }
  }

  /** Reading a written key gives back the task's status and second, whatever its id. */
  lemma ParseRecovers(t: Task)
    requires IsInt64(Unix(t.executeAt))
    ensures ParseKey(TaskKey(t)) == Some((t.status.Name(), Unix(t.executeAt)))
  {
    KeyParts(t);
    ParsePad16(Unix(t.executeAt));
  }

  lemma NamesColonFree(s: Status)
    ensures ColonFree(s.Name()) && |s.Name()| >= 6
  {
    match s {
      case Pending => assert ColonFree("pending");
      case Running => assert ColonFree("running");
      case Succeeded => assert ColonFree("succeeded");
      case Failed => assert ColonFree("failed");
      case Cancelled => assert ColonFree("cancelled");
    }
  }

  lemma NamesDistinct(a: Status, b: Status)
    ensures a.Name() == b.Name() <==> a == b
    ensures a.Name()[0] == b.Name()[0] <==> a == b
  {
  }

  /** No two tasks with different ids ever share a key. */
  lemma KeyDeterminesTask(t: Task, u: Task)
    requires TaskKey(t) == TaskKey(u)
    ensures t.id == u.id && t.status == u.status
  {
    KeyParts(t);
    KeyParts(u);
    var p, q := SplitN(TaskKey(t), 4), SplitN(TaskKey(u), 4);
    assert p[1] == q[1] && p[3] == q[3];
    NamesDistinct(t.status, u.status);
  }

  /** A partition's prefix picks out exactly the keys of the tasks in that status. */
  lemma PartitionPrefix(s: Status, t: Task)
    ensures StatusPrefix(s.Name()) <= TaskKey(t) <==> t.status == s
    ensures KEY_PREFIX <= TaskKey(t)
  {
    var rest := Pad16(Unix(t.executeAt)) + ":" + t.id;
    NamesDistinct(s, t.status);
    NamesColonFree(s);
    NamesColonFree(t.status);
    Regroup(t.status.Name(), Pad16(Unix(t.executeAt)), t.id);
    PrefixTest(s.Name(), t.status.Name(), Pad16(Unix(t.executeAt)) + (":" + t.id));
  }

  lemma PrefixTest(a: string, b: string, rest: string)
    requires a != "" && b != ""
    ensures StatusPrefix(b) <= StatusPrefix(b) + rest
    ensures KEY_PREFIX <= StatusPrefix(b) + rest
    ensures StatusPrefix(a) <= StatusPrefix(b) + rest ==> a[0] == b[0]
  {
    var k := StatusPrefix(b) + rest;
    assert k[5] == b[0] && StatusPrefix(a)[5] == a[0];
    assert k[..5] == KEY_PREFIX;
  }

  /** Within a partition, byte order of keys is the order by second and then by id. */
  lemma PartitionOrder(t: Task, u: Task)
    requires t.status == u.status
    requires 0 <= Unix(t.executeAt) < 10_000_000_000_000_000
    requires 0 <= Unix(u.executeAt) < 10_000_000_000_000_000
    ensures Less(TaskKey(t), TaskKey(u)) <==>
      Unix(t.executeAt) < Unix(u.executeAt) || (Unix(t.executeAt) == Unix(u.executeAt) && Less(t.id, u.id))
  {
    var m, n := Unix(t.executeAt), Unix(u.executeAt);
    var p := StatusPrefix(t.status.Name());
    var x, y := ":" + t.id, ":" + u.id;
    Pad16Width(m);
    Pad16Width(n);
    PaddedDigits(m, 16);
    PaddedDigits(n, 16);
    Regroup(t.status.Name(), Pad16(m), t.id);
    Regroup(u.status.Name(), Pad16(n), u.id);
    SharedPrefix(p, Pad16(m) + x, Pad16(n) + y);
    if m == n {
      SharedPrefix(Pad16(m), x, y);
      SharedPrefix(":", t.id, u.id);
    } else {
      DigitOrder(Pad16(m), Pad16(n));
      HeadsDecide(Pad16(m), Pad16(n), x, y);
    }
  }

  /** A key lies past "<partition><second>" exactly when its second is that second or a later one. */
  lemma PastSecond(t: Task, second: int)
    requires 0 <= Unix(t.executeAt) < 10_000_000_000_000_000 && 0 <= second < 10_000_000_000_000_000
    ensures Less(StatusPrefix(t.status.Name()) + Pad16(second), TaskKey(t)) <==> second <= Unix(t.executeAt)
  {
    var m, p := Unix(t.executeAt), StatusPrefix(t.status.Name());
    var x := ":" + t.id;
    Pad16Width(m);
    Pad16Width(second);
    PaddedDigits(m, 16);
    PaddedDigits(second, 16);
    Regroup(t.status.Name(), Pad16(m), t.id);
    SharedPrefix(p, Pad16(second), Pad16(m) + x);
    if m == second {
      assert Pad16(m) + "" == Pad16(m);
      SharedPrefix(Pad16(m), "", x);
    } else {
      DigitOrder(Pad16(second), Pad16(m));
      HeadsDecide(Pad16(second), Pad16(m), "", x);
      assert Pad16(second) + "" == Pad16(second);
    }
  }

  // ---- finding a key by its id suffix

  lemma PeelColon(h: string, a: string, x: string)
    requires ColonFree(a)
    ensures HasSuffix(h + ":" + a, ":" + x) <==>
      x == a || (|x| > |a| && x[|x| - |a| - 1..] == ":" + a && HasSuffix(h, ":" + x[..|x| - |a| - 1]))
  {
    var s, w := h + ":" + a, ":" + x;
    if |x| < |a| {
      assert s[|s| - |w|] == a[|a| - |w|] != w[0];
      assert s[|s| - |w|..][0] != w[0];
    } else if |x| == |a| {
      assert s[|s| - |w|..] == ":" + a;
      assert (":" + a)[1..] == a && (":" + x)[1..] == x;
    } else if |w| <= |s| {
      var k := |x| - |a| - 1;
      SplitSuffix(h[|s| - |w|..], ":" + a, ":" + x[..k], x[k..]);
      assert w == (":" + x[..k]) + x[k..];
      assert s[|s| - |w|..] == h[|s| - |w|..] + (":" + a);
    }
  }

  lemma SplitSuffix(a: string, b: string, c: string, d: string)
    requires |b| == |d|
    ensures a + b == c + d <==> a == c && b == d
  {
    if a + b == c + d {
      assert (a + b)[..|a|] == a && (c + d)[..|a|] == c;
      assert (a + b)[|a|..] == b && (c + d)[|a|..] == d;
    }
  }

  /** Exactly which texts the suffix test finds a task under: its id, or its id behind more of its key. */
  lemma SuffixScan(t: Task, x: string)
    requires ColonFree(t.id)
    ensures HasSuffix(TaskKey(t), ":" + x) <==>
      x == t.id || x == Pad16(Unix(t.executeAt)) + ":" + t.id
      || x == t.status.Name() + ":" + Pad16(Unix(t.executeAt)) + ":" + t.id
  {
    Pad16ColonFree(Unix(t.executeAt));
    NamesColonFree(t.status);
    Regroup(t.status.Name(), Pad16(Unix(t.executeAt)), t.id);
    SuffixOfParts(t.status.Name(), Pad16(Unix(t.executeAt)), t.id, x);
    assert TaskKey(t) == "task" + ":" + t.status.Name() + ":" + Pad16(Unix(t.executeAt)) + ":" + t.id;
  }

  lemma SuffixOfParts(name: string, pad: string, id: string, x: string)
    requires ColonFree(name) && ColonFree(pad) && ColonFree(id)
    ensures HasSuffix("task" + ":" + name + ":" + pad + ":" + id, ":" + x) <==>
      x == id || x == pad + ":" + id || x == name + ":" + pad + ":" + id
  {
    var h2 := "task" + ":" + name;
    PeelColon(h2 + ":" + pad, id, x);
    assert name + ":" + pad + ":" + id == (name + ":" + pad) + (":" + id);
    assert pad + ":" + id == pad + (":" + id);
    if |x| > |id| {
      var y := x[..|x| - |id| - 1];
      assert x == y + x[|x| - |id| - 1..];
      SuffixOfHead(name, pad, y);
      SplitSuffix(y, x[|x| - |id| - 1..], pad, ":" + id);
      SplitSuffix(y, x[|x| - |id| - 1..], name + ":" + pad, ":" + id);
    }
  }

  lemma SuffixOfHead(name: string, pad: string, y: string)
    requires ColonFree(name) && ColonFree(pad)
    ensures HasSuffix("task" + ":" + name + ":" + pad, ":" + y) <==> y == pad || y == name + ":" + pad
  {
    PeelColon("task" + ":" + name, pad, y);
    assert name + ":" + pad == name + (":" + pad);
    if |y| > |pad| {
      var z := y[..|y| - |pad| - 1];
      assert y == z + y[|y| - |pad| - 1..];
      PeelColon("task", name, z);
      NoColonInTask();
      SplitSuffix(z, y[|y| - |pad| - 1..], name, ":" + pad);
    }
  }

  lemma NoColonInTask()
    ensures forall w: string :: !HasSuffix("task", ":" + w)
  {
    forall w: string
      ensures !HasSuffix("task", ":" + w)
    {
      if |w| < 4 {
        assert "task"[3 - |w|..][0] == "task"[3 - |w|] != (":" + w)[0];
      }
    }
  }

  /** For colon-free ids, such as UUIDs, the suffix test is equality of ids. */
  lemma SuffixIsId(t: Task, id: Id)
    requires ColonFree(t.id) && ColonFree(id)
    ensures HasSuffix(TaskKey(t), ":" + id) <==> t.id == id
  {
    SuffixScan(t, id);
    var pad := Pad16(Unix(t.executeAt));
    assert (pad + ":" + t.id)[|pad|] == ':';
    assert (t.status.Name() + ":" + pad + ":" + t.id)[|t.status.Name()|] == ':';
  }
}
