// UBX frame assembly and the 8-bit Fletcher checksum
// (u-blox interface description, "UBX frame structure" and "UBX checksum").
module UbxProtocol {
  import opened Bytes

  const SYNC_1: byte := 0xB5
  const SYNC_2: byte := 0x62
  const FRAME_OVERHEAD := 8

  datatype Checksum = Checksum(a: byte, b: byte)

  // One turn of the checksum loop: CK_A += b; CK_B += CK_A, both modulo 256.
  function Fold(c: Checksum, b: byte): Checksum {
    var a := (c.a + b) % 256;
    Checksum(a, (c.b + a) % 256)
  }

  // The running checksum after all of `data`.
  function Fletcher(data: seq<byte>): Checksum {
    if data == [] then Checksum(0, 0)
    else Fold(Fletcher(data[..|data| - 1]), data[|data| - 1])
  }

  lemma FletcherSnoc(data: seq<byte>, b: byte)
    ensures Fletcher(data + [b]) == Fold(Fletcher(data), b)
  {
    assert (data + [b])[..|data|] == data;
  }

  // ----- Closed forms ------------------------------------------------------

  function Sum(data: seq<byte>): nat {
    if data == [] then 0 else data[0] + Sum(data[1..])
  }

  // The sum of (n - i) * data[i].
  function WeightedSum(data: seq<byte>): nat {
    if data == [] then 0 else |data| * data[0] + WeightedSum(data[1..])
  }

  lemma {:induction false} SumsSnoc(data: seq<byte>, b: byte)
    ensures Sum(data + [b]) == Sum(data) + b
    ensures WeightedSum(data + [b]) == WeightedSum(data) + Sum(data) + b
  {
    if data == [] {
    } else {
      SumsSnoc(data[1..], b);
      assert (data + [b])[1..] == data[1..] + [b];
      assert (|data| + 1) * data[0] == |data| * data[0] + data[0];
    }
  }

  lemma ModAdd(x: int, y: int)
    ensures (x % 256 + y) % 256 == (x + y) % 256
    ensures (x % 256 + y % 256) % 256 == (x + y) % 256
  {
  }

  lemma {:induction false} FletcherClosedForm(data: seq<byte>)
    ensures Fletcher(data) == Checksum(Sum(data) % 256, WeightedSum(data) % 256)
  {
    if data == [] {
    } else {
      var p, b := data[..|data| - 1], data[|data| - 1];
      FletcherClosedForm(p);
      SumsSnoc(p, b);
      assert p + [b] == data;
      FoldSums(Sum(p), WeightedSum(p), b);
    }
  }

  lemma FoldSums(sum: nat, weighted: nat, b: byte)
    ensures Fold(Checksum(sum % 256, weighted % 256), b)
         == Checksum((sum + b) % 256, (weighted + (sum + b)) % 256)
  {
    ModAdd(sum, b);
    ModAdd(weighted, sum + b);
  }

  // Replacing one byte moves both sums by a known amount.
  lemma {:induction false} SumsUpdate(data: seq<byte>, k: nat, v: byte)
    requires k < |data|
    ensures Sum(data[k := v]) == Sum(data) - data[k] + v
    ensures WeightedSum(data[k := v]) == WeightedSum(data) + (|data| - k) * (v as int - data[k] as int)
  {
    var d := data[k := v];
    if k == 0 {
      assert d[1..] == data[1..];
      assert |data| * v - |data| * data[0] == |data| * (v as int - data[0] as int);
    } else {
      SumsUpdate(data[1..], k - 1, v);
      assert d[1..] == data[1..][k - 1 := v];
      assert |data[1..]| - (k - 1) == |data| - k;
    }
  }

  // ----- The checksum loop -------------------------------------------------

  method ComputeChecksum(data: seq<byte>) returns (ckA: byte, ckB: byte)
    ensures ckA == Sum(data) % 256
    ensures ckB == WeightedSum(data) % 256
    ensures Checksum(ckA, ckB) == Fletcher(data)
  {
    ckA, ckB := 0, 0;
    for i := 0 to |data|
      invariant Checksum(ckA, ckB) == Fletcher(data[..i])
    {
      ckA := (ckA + data[i]) % 256;
      ckB := (ckB + ckA) % 256;
      assert data[..i + 1][..i] == data[..i];
    }
    assert data[..|data|] == data;
    FletcherClosedForm(data);
  }

  // ----- Frames ------------------------------------------------------------

  function Header(msgClass: byte, msgId: byte, len: nat): seq<byte> {
    [msgClass, msgId, LowByte(len), HighByte(len)]
  }

  // The frame for a payload the 16-bit length field can describe.
  function Built(msgClass: byte, msgId: byte, payload: seq<byte>): seq<byte> {
    var covered := Header(msgClass, msgId, |payload|) + payload;
    [SYNC_1, SYNC_2] + covered + [Fletcher(covered).a, Fletcher(covered).b]
  }

  // build_ubx_frame.  The length is cast to 16 bits, and the checksum covers
  // only that many payload bytes although the whole payload is inserted.
  method BuildUbxFrame(msgClass: byte, msgId: byte, payload: seq<byte>) returns (frame: seq<byte>)
    ensures var len := |payload| % 65536;
            var covered := Header(msgClass, msgId, len) + payload;
            var k := Fletcher(covered[..4 + len]);
            frame == [SYNC_1, SYNC_2] + covered + [k.a, k.b]
    ensures |payload| < 65536 ==> frame == Built(msgClass, msgId, payload)
  {
    hide LowByte, HighByte, Fletcher;
    var payloadLen := |payload| % 65536;
    frame := [];
    frame := frame + [SYNC_1];
    frame := frame + [SYNC_2];
    frame := frame + [msgClass];
    frame := frame + [msgId];
    frame := frame + [LowByte(payloadLen)];
    frame := frame + [HighByte(payloadLen)];
    frame := frame + payload;
    ghost var covered := Header(msgClass, msgId, payloadLen) + payload;
    assert frame == [SYNC_1, SYNC_2] + covered;
    assert frame[2..] == covered;
    var ckA, ckB := ComputeChecksum(frame[2..][..4 + payloadLen]);
    frame := frame + [ckA];
    frame := frame + [ckB];
    assert [ckA] + [ckB] == [ckA, ckB];
    if |payload| < 65536 {
      assert covered[..4 + payloadLen] == covered;
    }
  }

  // verify_frame_checksum: both bytes are compared with the checksum of
  // everything between the sync pair and the trailing two bytes.
  predicate Verifies(frame: seq<byte>) {
    && |frame| >= FRAME_OVERHEAD
    && Checksum(frame[|frame| - 2], frame[|frame| - 1]) == Fletcher(frame[2..|frame| - 2])
  }

  method VerifyFrameChecksum(frame: seq<byte>) returns (ok: bool)
    ensures ok <==> Verifies(frame)
    ensures ok <==>
              && |frame| >= 8
              && frame[|frame| - 2] == Sum(frame[2..|frame| - 2]) % 256
              && frame[|frame| - 1] == WeightedSum(frame[2..|frame| - 2]) % 256
  {
    if |frame| < FRAME_OVERHEAD {
      return false;
    }
    var payloadLen := |frame| - FRAME_OVERHEAD;
    assert frame[2..][..4 + payloadLen] == frame[2..|frame| - 2];
    var ckA, ckB := ComputeChecksum(frame[2..][..4 + payloadLen]);
    ok := frame[|frame| - 2] == ckA && frame[|frame| - 1] == ckB;
  }

  lemma BuiltVerifies(msgClass: byte, msgId: byte, payload: seq<byte>)
    requires |payload| < 65536
    ensures var f := Built(msgClass, msgId, payload);
            && Verifies(f)
            && |f| == |payload| + 8
            && f[..4] == [0xB5, 0x62, msgClass, msgId]
            && f[4] as int + 256 * (f[5] as int) == |payload|
            && f[6..|f| - 2] == payload
            && f[|f| - 2] == Sum(f[2..|f| - 2]) % 256
            && f[|f| - 1] == WeightedSum(f[2..|f| - 2]) % 256
  {
    Le16Joins(|payload|);
    var h := Header(msgClass, msgId, |payload|);
    FrameShape(h, payload, Fletcher(h + payload));
    FletcherClosedForm(h + payload);
    hide Fletcher, Sum, WeightedSum;
  }

  // The poll for MON-VER.
  lemma MonVerPoll()
    ensures Built(0x0A, 0x04, []) == [0xB5, 0x62, 0x0A, 0x04, 0x00, 0x00, 0x0E, 0x34]
  {
    var h: seq<byte> := [0x0A, 0x04, 0x00, 0x00];
    assert Header(0x0A, 0x04, 0) + [] == h;
    FletcherClosedForm(h);
    assert Sum(h) == 0x0E && WeightedSum(h) == 0x34 by {
      SumsOfFour(0x0A, 0x04, 0x00, 0x00);
    }
  }

  lemma SumsOfFour(a: byte, b: byte, c: byte, d: byte)
    ensures Sum([a, b, c, d]) == a + b + c + d
    ensures WeightedSum([a, b, c, d]) == 4 * a + 3 * b + 2 * c + d
  {
    assert [a, b, c, d][1..] == [b, c, d] && [b, c, d][1..] == [c, d] && [c, d][1..] == [d] && [d][1..] == [];
    assert Sum([d]) == d && WeightedSum([d]) == d;
    assert Sum([c, d]) == c + d && WeightedSum([c, d]) == 2 * c + d;
    assert Sum([b, c, d]) == b + c + d && WeightedSum([b, c, d]) == 3 * b + 2 * c + d;
  }

  lemma FrameShape(h: seq<byte>, payload: seq<byte>, k: Checksum)
    requires |h| == 4
    ensures var f := [SYNC_1, SYNC_2] + (h + payload) + [k.a, k.b];
            && |f| == |payload| + 8
            && f[2..|f| - 2] == h + payload
            && f[|f| - 2] == k.a && f[|f| - 1] == k.b
            && f[..4] == [SYNC_1, SYNC_2, h[0], h[1]]
            && f[4] == h[2] && f[5] == h[3]
            && f[6..|f| - 2] == payload
  {
  }

  // Adding d keeps a residue modulo 256 exactly when 256 divides d.
  lemma Residue(x: int, d: int)
    ensures (x + d) % 256 == x % 256 <==> d % 256 == 0
  {
    ModAdd(x, d);
    ModAdd(d, x);
  }

  lemma SmallChange(x: int, before: byte, v: byte)
    requires before != v
    ensures (x - before + v) % 256 != x % 256
  {
    Residue(x, v as int - before as int);
  }

  lemma CoveredByteMovesCkA(data: seq<byte>, k: nat, v: byte)
    requires k < |data| && v != data[k]
    ensures Fletcher(data[k := v]).a != Fletcher(data).a
  {
    assert Sum(data[k := v]) == Sum(data) - data[k] + v by {
      SumsUpdate(data, k, v);
    }
    assert Fletcher(data).a == Sum(data) % 256 by { FletcherClosedForm(data); }
    assert Fletcher(data[k := v]).a == Sum(data[k := v]) % 256 by { FletcherClosedForm(data[k := v]); }
    SmallChange(Sum(data), data[k], v);
  }

  // Any single changed byte after the sync pair is detected.
  lemma SingleByteErrorDetected(frame: seq<byte>, k: nat, v: byte)
    requires Verifies(frame)
    requires 2 <= k < |frame| && v != frame[k]
    ensures !Verifies(frame[k := v])
  {
    var bad := frame[k := v];
    var n := |frame|;
    var covered := frame[2..n - 2];
    if k >= n - 2 {
      assert bad[2..n - 2] == covered;
    } else {
      assert bad[2..n - 2] == covered[k - 2 := v];
      CoveredByteMovesCkA(covered, k - 2, v);
    }
  }

  lemma Telescope(n: int, i: int, j: int, x: int, y: int)
    ensures (n - i) * (y - x) + (n - j) * (x - y) == (j - i) * (y - x)
  {
  }

  lemma SwapSums(data: seq<byte>, i: nat, j: nat)
    requires i < j < |data|
    ensures Sum(data[i := data[j]][j := data[i]]) == Sum(data)
    ensures WeightedSum(data[i := data[j]][j := data[i]])
         == WeightedSum(data) + (j - i) * (data[j] as int - data[i] as int)
  {
    SumsUpdate(data, i, data[j]);
    SumsUpdate(data[i := data[j]], j, data[i]);
    Telescope(|data|, i, j, data[i], data[j]);
  }

  lemma SwapChecksum(data: seq<byte>, i: nat, j: nat)
    requires i < j < |data|
    ensures Fletcher(data[i := data[j]][j := data[i]]) == Fletcher(data)
       <==> (j - i) * (data[j] as int - data[i] as int) % 256 == 0
  {
    var d := (j - i) * (data[j] as int - data[i] as int);
    var swapped := data[i := data[j]][j := data[i]];
    assert Sum(swapped) == Sum(data) && WeightedSum(swapped) == WeightedSum(data) + d by { SwapSums(data, i, j); }
    FletcherClosedForm(data);
    FletcherClosedForm(swapped);
    hide Fletcher, Sum, WeightedSum;
    Residue(WeightedSum(data), d);
  }

  // Exchanging two covered bytes escapes the checksum exactly when the distance
  // times their difference is a multiple of 256.
  lemma SwapUndetectedIff(frame: seq<byte>, i: nat, j: nat)
    requires Verifies(frame)
    requires 2 <= i < j < |frame| - 2
    ensures Verifies(frame[i := frame[j]][j := frame[i]])
       <==> (j - i) * (frame[j] as int - frame[i] as int) % 256 == 0
  {
    var bad := frame[i := frame[j]][j := frame[i]];
    var n := |frame|;
    var covered := frame[2..n - 2];
    SwapChecksum(covered, i - 2, j - 2);
    hide Fletcher;
    assert (j - 2) - (i - 2) == j - i;
    assert covered[i - 2] == frame[i] && covered[j - 2] == frame[j];
    assert bad[2..n - 2] == covered[i - 2 := covered[j - 2]][j - 2 := covered[i - 2]];
  }

  // In particular adjacent unequal bytes never swap unnoticed.
  lemma AdjacentSwapDetected(frame: seq<byte>, i: nat)
    requires Verifies(frame)
    requires 2 <= i && i + 1 < |frame| - 2 && frame[i] != frame[i + 1]
    ensures !Verifies(frame[i := frame[i + 1]][i + 1 := frame[i]])
  {
    SwapUndetectedIff(frame, i, i + 1);
  }
}
