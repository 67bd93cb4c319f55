/** T4 frames (custom_components/nice_bidiwifi/protocol/t4): building DMP and DEP frames with
    their lengths and checksums, and decoding DMP responses and live messages.  A byte is a
    number from 0 to 255, as in the source. */
module T4Frames {
  import opened Prelude

  type Octet = n: int | 0 <= n <= 0xFF

  type Octets = seq<Octet>

  datatype Built = Frame(bytes: Octets) | ValueError

  // ----- exclusive or -----

  /** Python's `^` on natural numbers, bit by bit. */
  function Xor2(a: nat, b: nat): nat
    decreases a + b
  {
    if a == 0 && b == 0 then 0 else 2 * Xor2(a / 2, b / 2) + (a + b) % 2
  }

  lemma {:induction false} XorSelf(a: nat)
    ensures Xor2(a, a) == 0
  {
    if a > 0 {
      XorSelf(a / 2);
    }
  }

  lemma {:induction false} XorZero(a: nat)
    ensures Xor2(0, a) == a && Xor2(a, 0) == a
  {
    if a > 0 {
      XorZero(a / 2);
    }
  }

  lemma {:induction false} XorCommutes(a: nat, b: nat)
    ensures Xor2(a, b) == Xor2(b, a)
    decreases a + b
  {
    if a + b > 0 {
      XorCommutes(a / 2, b / 2);
    }
  }

  /** One more bit on the right. */
  lemma {:induction false} XorUp(a: nat, b: nat, higherA: nat, higherB: nat, higher: nat)
    requires a / 2 == higherA && b / 2 == higherB && Xor2(higherA, higherB) == higher
    ensures Xor2(a, b) == 2 * higher + (a + b) % 2
  {
  }

  lemma {:induction false} XorHalves(a: nat, b: nat)
    ensures Xor2(a, b) / 2 == Xor2(a / 2, b / 2)
    ensures Xor2(a, b) % 2 == (a + b) % 2
  {
  }

  lemma {:induction false} SameHalves(x: nat, y: nat)
    requires x / 2 == y / 2 && x % 2 == y % 2
    ensures x == y
  {
  }

  lemma {:induction false} SameParity(ab: nat, bc: nat, a: nat, b: nat, c: nat)
    requires ab % 2 == (a + b) % 2 && bc % 2 == (b + c) % 2
    ensures (ab + c) % 2 == (a + bc) % 2
  {
  }

  lemma {:induction false} XorAssociates(a: nat, b: nat, c: nat)
    ensures Xor2(Xor2(a, b), c) == Xor2(a, Xor2(b, c))
    decreases a + b + c
  {
    if a + b + c > 0 {
      hide Xor2;
      var ab, bc := Xor2(a, b), Xor2(b, c);
      XorAssociates(a / 2, b / 2, c / 2);
      XorHalves(a, b);
      XorHalves(b, c);
      XorHalves(ab, c);
      XorHalves(a, bc);
      SameParity(ab, bc, a, b, c);
      SameHalves(Xor2(ab, c), Xor2(a, bc));
    }
  }

  /** The constants of the two headers. */
  lemma {:induction false} HeaderConstants()
    ensures Xor2(0x50, 0x91) == 0xC1 && Xor2(0xC1, 0x08) == 0xC9
    ensures Xor2(0xC1, 0x01) == 0xC0 && Xor2(0xC0, 0x05) == 0xC5 && Xor2(0xC5, 0xC6) == 0x03
  {
    hide Xor2;
    XorZero(0);
    XorUp(0, 1, 0, 0, 0); XorUp(1, 2, 0, 1, 1); XorUp(2, 4, 1, 2, 3); XorUp(5, 9, 2, 4, 6);
    XorUp(10, 18, 5, 9, 12); XorUp(20, 36, 10, 18, 24); XorUp(40, 72, 20, 36, 48); XorUp(80, 145, 40, 72, 96);
    XorUp(1, 0, 0, 0, 0); XorUp(3, 0, 1, 0, 1); XorUp(6, 0, 3, 0, 3); XorUp(12, 0, 6, 0, 6);
    XorUp(24, 1, 12, 0, 12); XorUp(48, 2, 24, 1, 25); XorUp(96, 4, 48, 2, 50); XorUp(193, 8, 96, 4, 100);
    XorUp(1, 0, 0, 0, 0); XorUp(3, 0, 1, 0, 1); XorUp(6, 0, 3, 0, 3); XorUp(12, 0, 6, 0, 6);
    XorUp(24, 0, 12, 0, 12); XorUp(48, 0, 24, 0, 24); XorUp(96, 0, 48, 0, 48); XorUp(193, 1, 96, 0, 96);
    XorUp(1, 0, 0, 0, 0); XorUp(3, 0, 1, 0, 1); XorUp(6, 0, 3, 0, 3); XorUp(12, 0, 6, 0, 6);
    XorUp(24, 0, 12, 0, 12); XorUp(48, 1, 24, 0, 24); XorUp(96, 2, 48, 1, 49); XorUp(192, 5, 96, 2, 98);
    XorUp(1, 1, 0, 0, 0); XorUp(3, 3, 1, 1, 0); XorUp(6, 6, 3, 3, 0); XorUp(12, 12, 6, 6, 0);
    XorUp(24, 24, 12, 12, 0); XorUp(49, 49, 24, 24, 0); XorUp(98, 99, 49, 49, 0); XorUp(197, 198, 98, 99, 1);
  }

  /** Applying the same operand twice changes nothing. */
  lemma {:induction false} XorTwice(a: nat, b: nat)
    ensures Xor2(Xor2(a, b), b) == a
  {
    XorAssociates(a, b, b);
    XorSelf(b);
    XorZero(a);
  }

  lemma {:induction false} XorZeroMeansEqual(a: nat, b: nat)
    ensures Xor2(a, b) == 0 <==> a == b
  {
    XorTwice(a, b);
    XorZero(b);
    XorSelf(a);
  }

  lemma {:induction false} XorFits(a: nat, b: nat, bits: nat)
    requires a < Pow2(bits) && b < Pow2(bits)
    ensures Xor2(a, b) < Pow2(bits)
    decreases bits
  {
    if bits > 0 {
      XorFits(a / 2, b / 2, bits - 1);
      XorHalves(a, b);
    }
  }

  function Pow2(n: nat): nat { if n == 0 then 1 else 2 * Pow2(n - 1) }

  lemma {:induction false} XorOctet(a: Octet, b: Octet)
    ensures Xor2(a, b) <= 0xFF
  {
    assert Pow2(8) == 256;
    XorFits(a, b, 8);
  }

  /** The XOR of a list of bytes. */
  function Xor(s: Octets): Octet
  {
    if s == [] then 0
    else
      XorOctet(Xor(s[..|s| - 1]), s[|s| - 1]);
      Xor2(Xor(s[..|s| - 1]), s[|s| - 1])
  }

  /** `dmp_checksum`. */
  method DmpChecksum(values: Octets) returns (checksum: Octet)
    ensures checksum == Xor(values)
  {
    checksum := 0;
    for i := 0 to |values|
      invariant checksum == Xor(values[..i])
    {
      XorOctet(checksum, values[i]);
      checksum := Xor2(checksum, values[i]) % 0x100;
      assert values[..i + 1][..i] == values[..i];
    }
    assert values[..|values|] == values;
  }

  lemma {:induction false} XorAppend(s: Octets, b: Octet)
    ensures Xor(s + [b]) == Xor2(Xor(s), b)
  {
    assert (s + [b])[..|s|] == s;
  }

  // ----- building -----

  predicate IsByte(n: int) { 0 <= n <= 0xFF }

  predicate AllBytes(values: seq<int>)
  {
    forall i :: 0 <= i < |values| ==> IsByte(values[i])
  }

  /** `bytes([0x55, length, *body, length])` for a header, arguments and their checksum; it
      raises when an argument or the length is not a byte. */
  function Assemble(header: Octets, args: seq<int>): Built
  {
    var length := |header| + |args| + 1;
    if !AllBytes(args) || !IsByte(length) then ValueError
    else Frame([0x55, length] + header + args + [Xor(args), length])
  }

  /** The check byte of a DMP header. */
  function Marker(daddr: Octet, dendpoint: Octet, sublen: Octet): Octet
  {
    XorOctet(0xC9, sublen);
    XorOctet(Xor2(0xC9, sublen), daddr);
    XorOctet(Xor2(Xor2(0xC9, sublen), daddr), dendpoint);
    Xor2(Xor2(Xor2(0xC9, sublen), daddr), dendpoint)
  }

  /** The DMP header; its last byte makes the seven bytes XOR to zero. */
  function DmpHeader(daddr: Octet, dendpoint: Octet, sublen: Octet): Octets
  {
    [daddr, dendpoint, 0x50, 0x91, 0x08, sublen, Marker(daddr, dendpoint, sublen)]
  }

  /** Header numbers that are not bytes end in the same ValueError. */
  function BuildDmp(daddr: int, dendpoint: int, args: seq<int>): Built
  {
    if !IsByte(daddr) || !IsByte(dendpoint) || !IsByte(|args| + 1) then ValueError
    else Assemble(DmpHeader(daddr, dendpoint, |args| + 1), args)
  }

  function ReadArgs(group: int, parameter: int, index: Option<int>): seq<int>
  {
    [group, parameter, 0x99, 0x00] + match index case None => [0x00] case Some(i) => [0x01, i]
  }

  /** `build_dmp_read_frame`. */
  function BuildDmpRead(daddr: int, dendpoint: int, group: int, parameter: int, index: Option<int>): Built
  {
    BuildDmp(daddr, dendpoint, ReadArgs(group, parameter, index))
  }

  function WriteArgs(group: int, parameter: int, value: seq<int>): seq<int>
  {
    [group, parameter, 0xA9, 0x00, |value|] + value
  }

  /** `build_dmp_write_frame`. */
  function BuildDmpWrite(daddr: int, dendpoint: int, group: int, parameter: int, value: seq<int>): Built
  {
    if value == [] || |value| > 0xFF then ValueError
    else BuildDmp(daddr, dendpoint, WriteArgs(group, parameter, value))
  }

  function DepHeader(daddr: Octet, dendpoint: Octet): Octets
  {
    [daddr, dendpoint, 0x50, 0x91, 0x01, 0x05, 0xC6]
  }

  /** `build_dep_action_frame`, whose header has constants in place of length and check byte. */
  function BuildDep(command: int, daddr: int, dendpoint: int): Built
  {
    if !IsByte(command) || !IsByte(daddr) || !IsByte(dendpoint) then ValueError
    else Assemble(DepHeader(daddr, dendpoint), [0x01, 0x82, command, 0x64])
  }

  /** The frame shape every receiver relies on: equal leading and trailing lengths that count
      the body, and arguments that XOR to zero with their checksum. */
  predicate WellShaped(f: Octets)
  {
    && 11 <= |f| <= 0xFF + 3 && f[0] == 0x55
    && f[1] == f[|f| - 1] == |f| - 3
    && f[4] == 0x50 && f[5] == 0x91
    && Xor(f[9..|f| - 1]) == 0
  }

  predicate HeaderBalanced(f: Octets)
    requires |f| >= 9
  {
    Xor(f[2..9]) == 0
  }

  lemma {:induction false} AssembleShapes(header: Octets, args: seq<int>)
    requires |header| == 7 && header[2] == 0x50 && header[3] == 0x91 && args != []
    ensures var built := Assemble(header, args);
            && (built.Frame? <==> AllBytes(args) && |args| <= 0xFF - 8)
            && (built.Frame? ==>
                  && WellShaped(built.bytes)
                  && |built.bytes| == |args| + 11
                  && built.bytes[2..9] == header
                  && built.bytes[9..9 + |args|] == args)
  {
    hide Xor;
    var built := Assemble(header, args);
    if built.Frame? {
      var f := built.bytes;
      assert f[9..|f| - 1] == args + [Xor(args)];
      XorAppend(args, Xor(args));
      XorSelf(Xor(args));
    }
  }

  lemma {:induction false} XorPrefix(s: Octets, n: nat)
    requires n < |s|
    ensures Xor(s[..n + 1]) == Xor2(Xor(s[..n]), s[n])
  {
    assert s[..n + 1][..n] == s[..n];
  }

  /** The XOR of a seven-byte header is that of its target, its three constants together and
      its last two bytes. */
  lemma {:induction false} XorSeven(h: Octets, constant: nat)
    requires |h| == 7 && constant == Xor2(Xor2(h[2], h[3]), h[4])
    ensures Xor(h) == Xor2(Xor2(Xor2(Xor2(h[0], h[1]), constant), h[5]), h[6])
  {
    assert Xor(h[..0]) == 0;
    hide Xor, Xor2;
    XorPrefix(h, 0);
    XorPrefix(h, 1);
    XorPrefix(h, 2);
    XorPrefix(h, 3);
    XorPrefix(h, 4);
    XorPrefix(h, 5);
    XorPrefix(h, 6);
    XorZero(h[0]);
    assert h[..7] == h;
    var target := Xor2(h[0], h[1]);
    XorAssociates(target, h[2], h[3]);
    XorAssociates(target, Xor2(h[2], h[3]), h[4]);
  }

  lemma {:induction false} DmpHeaderXor(d: Octet, e: Octet, n: Octet)
    ensures Xor(DmpHeader(d, e, n)) == 0
  {
    hide Xor, Xor2;
    HeaderConstants();
    XorSeven(DmpHeader(d, e, n), 0xC9);
    // Both sides are the same bytes in another order.
    var target := Xor2(d, e);
    XorAssociates(target, 0xC9, n);
    XorAssociates(Xor2(0xC9, n), d, e);
    XorCommutes(target, Xor2(0xC9, n));
    XorSelf(Xor2(Xor2(0xC9, n), target));
  }

  /** The DEP header has fixed bytes instead, which balance one kind of target only. */
  lemma {:induction false} DepHeaderXor(d: Octet, e: Octet)
    ensures Xor(DepHeader(d, e)) == 0 <==> Xor2(d, e) == 0x03
  {
    hide Xor, Xor2;
    HeaderConstants();
    XorSeven(DepHeader(d, e), 0xC0);
    var target := Xor2(d, e);
    XorAssociates(target, 0xC0, 0x05);
    XorAssociates(target, Xor2(0xC0, 0x05), 0xC6);
    XorZeroMeansEqual(target, 0x03);
  }

  /** Every DMP frame that can be built is well shaped with a balanced header. */
  lemma {:induction false} DmpFrameShape(daddr: int, dendpoint: int, args: seq<int>)
    requires |args| >= 5
    ensures var built := BuildDmp(daddr, dendpoint, args);
            && (built.Frame? <==> IsByte(daddr) && IsByte(dendpoint) && AllBytes(args) && |args| <= 0xFF - 8)
            && (built.Frame? ==> WellShaped(built.bytes) && HeaderBalanced(built.bytes)
                                 && |built.bytes| == |args| + 11 && built.bytes[9..9 + |args|] == args)
  {
    hide Xor, Assemble, WellShaped;
    if IsByte(daddr) && IsByte(dendpoint) && IsByte(|args| + 1) {
      AssembleShapes(DmpHeader(daddr, dendpoint, |args| + 1), args);
      DmpHeaderXor(daddr, dendpoint, |args| + 1);
    }
  }

  /** A write frame can be built exactly for byte-sized numbers and 1 to 242 value bytes, although
      the explicit length check lets 243 to 255 bytes through. */
  lemma {:induction false} WriteBuildableIff(daddr: int, dendpoint: int, group: int, parameter: int, value: seq<int>)
    ensures BuildDmpWrite(daddr, dendpoint, group, parameter, value).Frame?
            <==> && IsByte(daddr) && IsByte(dendpoint) && IsByte(group) && IsByte(parameter)
                 && AllBytes(value) && 1 <= |value| <= 242
  {
    hide BuildDmp;
    if value != [] {
      DmpFrameShape(daddr, dendpoint, WriteArgs(group, parameter, value));
      WriteArgsBytes(group, parameter, value);
    }
  }

  lemma {:induction false} WriteArgsBytes(group: int, parameter: int, value: seq<int>)
    ensures AllBytes(WriteArgs(group, parameter, value))
            <==> IsByte(group) && IsByte(parameter) && IsByte(|value|) && AllBytes(value)
  {
    var args := WriteArgs(group, parameter, value);
    assert args[0] == group && args[1] == parameter && args[4] == |value|;
    assert forall i :: 0 <= i < |value| ==> value[i] == args[i + 5];
  }

  /** A DEP frame is always well shaped; its header balances exactly for targets whose two
      bytes XOR to 3, as those of the default target do. */
  lemma {:induction false} DepFrameShape(command: int, daddr: int, dendpoint: int)
    ensures var built := BuildDep(command, daddr, dendpoint);
            && (built.Frame? <==> IsByte(command) && IsByte(daddr) && IsByte(dendpoint))
            && (built.Frame? ==> WellShaped(built.bytes)
                                 && (HeaderBalanced(built.bytes) <==> Xor2(daddr, dendpoint) == 0x03))
    ensures Xor2(0x00, 0x03) == 0x03
  {
    hide Xor, Assemble, WellShaped;
    var args := [0x01, 0x82, command, 0x64];
    XorZero(0x03);
    assert args[2] == command;
    if IsByte(daddr) && IsByte(dendpoint) {
      AssembleShapes(DepHeader(daddr, dendpoint), args);
      DepHeaderXor(daddr, dendpoint);
    }
  }

  /** What stands where in a frame: the target, and the arguments behind the header. */
  lemma {:induction false} FramesCarry(daddr: int, dendpoint: int, group: int, parameter: int, index: Option<int>,
                                       value: seq<int>, command: int)
    ensures var read := BuildDmpRead(daddr, dendpoint, group, parameter, index);
            read.Frame? ==>
              && read.bytes[2] == daddr && read.bytes[3] == dendpoint
              && read.bytes[9..13] == [group, parameter, 0x99, 0x00]
              && (match index
                  case None => |read.bytes| == 16 && read.bytes[13] == 0x00
                  case Some(i) => |read.bytes| == 17 && read.bytes[13] == 0x01 && read.bytes[14] == i)
    ensures var write := BuildDmpWrite(daddr, dendpoint, group, parameter, value);
            write.Frame? ==>
              && write.bytes[2] == daddr && write.bytes[3] == dendpoint
              && |write.bytes| == |value| + 16
              && write.bytes[9..14] == [group, parameter, 0xA9, 0x00, |value|]
              && write.bytes[14..14 + |value|] == value
    ensures var dep := BuildDep(command, daddr, dendpoint);
            dep.Frame? ==>
              && dep.bytes[2] == daddr && dep.bytes[3] == dendpoint
              && |dep.bytes| == 15 && dep.bytes[9..13] == [0x01, 0x82, command, 0x64]
  {
    hide BuildDmp;
    ReadCarries(daddr, dendpoint, group, parameter, index);
    WriteCarries(daddr, dendpoint, group, parameter, value);
    DepCarries(command, daddr, dendpoint);
  }

  lemma {:induction false} ReadCarries(daddr: int, dendpoint: int, group: int, parameter: int, index: Option<int>)
    ensures var read := BuildDmpRead(daddr, dendpoint, group, parameter, index);
            read.Frame? ==>
              && read.bytes[2] == daddr && read.bytes[3] == dendpoint
              && read.bytes[9..13] == [group, parameter, 0x99, 0x00]
              && (match index
                  case None => |read.bytes| == 16 && read.bytes[13] == 0x00
                  case Some(i) => |read.bytes| == 17 && read.bytes[13] == 0x01 && read.bytes[14] == i)
  {
    hide BuildDmp;
    if BuildDmpRead(daddr, dendpoint, group, parameter, index).Frame? {
      var args := ReadArgs(group, parameter, index);
      DmpCarries(daddr, dendpoint, args);
      var f := BuildDmpRead(daddr, dendpoint, group, parameter, index).bytes;
      PartsOf(f, args, 0, 4);
      PartsOf(f, args, 4, 5);
      PartsOf(f, args, |args| - 1, |args|);
      assert args[0..4] == [group, parameter, 0x99, 0x00];
    }
  }

  lemma {:induction false} WriteCarries(daddr: int, dendpoint: int, group: int, parameter: int, value: seq<int>)
    ensures var write := BuildDmpWrite(daddr, dendpoint, group, parameter, value);
            write.Frame? ==>
              && write.bytes[2] == daddr && write.bytes[3] == dendpoint
              && |write.bytes| == |value| + 16
              && write.bytes[9..14] == [group, parameter, 0xA9, 0x00, |value|]
              && write.bytes[14..14 + |value|] == value
  {
    hide BuildDmp;
    if BuildDmpWrite(daddr, dendpoint, group, parameter, value).Frame? {
      var args := WriteArgs(group, parameter, value);
      DmpCarries(daddr, dendpoint, args);
      var f := BuildDmpWrite(daddr, dendpoint, group, parameter, value).bytes;
      PartsOf(f, args, 0, 5);
      PartsOf(f, args, 5, |args|);
      assert args[0..5] == [group, parameter, 0xA9, 0x00, |value|] && args[5..|args|] == value;
    }
  }

  lemma {:induction false} DepCarries(command: int, daddr: int, dendpoint: int)
    ensures var dep := BuildDep(command, daddr, dendpoint);
            dep.Frame? ==>
              && dep.bytes[2] == daddr && dep.bytes[3] == dendpoint
              && |dep.bytes| == 15 && dep.bytes[9..13] == [0x01, 0x82, command, 0x64]
  {
    hide Xor;
  }

  lemma {:induction false} DmpCarries(daddr: int, dendpoint: int, args: seq<int>)
    requires BuildDmp(daddr, dendpoint, args).Frame?
    ensures var f := BuildDmp(daddr, dendpoint, args).bytes;
            |f| == |args| + 11 && f[2] == daddr && f[3] == dendpoint && f[9..9 + |args|] == args
  {
    hide Xor;
  }

  /** Parts of the arguments stand in order behind the header. */
  lemma {:induction false} PartsOf(f: Octets, args: seq<int>, from: nat, till: nat)
    requires from <= till <= |args| && 9 + |args| <= |f| && f[9..9 + |args|] == args
    ensures f[9 + from..9 + till] == args[from..till]
    ensures from < till ==> f[9 + from] == args[from]
  {
    var shown := f[9..9 + |args|];
    forall i | from <= i < till ensures f[9 + from..9 + till][i - from] == args[i] {
      assert shown[i] == args[i];
    }
    assert from < till ==> shown[from] == args[from];
  }

  // ----- decoding -----

  datatype DmpResponse = DmpResponse(
    group: Option<Octet>, parameter: Option<Octet>, operation: Option<Octet>,
    valueType: Option<Octet>, value: Option<Octets>)

  /** `decode_dmp_response`. */
  function DecodeDmp(plain: Octets): DmpResponse
  {
    if |plain| < 15 || plain[0] != 0x55 then DmpResponse(None, None, None, None, None)
    else
      var length: int := plain[12];
      if plain[11] == 0x19 && |plain| >= 14 + length then
        DmpResponse(Some(plain[9]), Some(plain[10]), Some(plain[11]), Some(plain[13]), Some(plain[14..14 + length]))
      else DmpResponse(Some(plain[9]), Some(plain[10]), Some(plain[11]), None, None)
  }

  lemma {:induction false} DecodeBuilt(daddr: int, dendpoint: int, args: seq<int>)
    requires |args| >= 5 && BuildDmp(daddr, dendpoint, args).Frame? && args[2] in {0x99, 0xA9}
    ensures IsByte(args[0]) && IsByte(args[1])
    ensures DecodeDmp(BuildDmp(daddr, dendpoint, args).bytes)
            == DmpResponse(Some(args[0]), Some(args[1]), Some(args[2]), None, None)
  {
    hide Xor, BuildDmp;
    DmpFrameShape(daddr, dendpoint, args);
    var f := BuildDmp(daddr, dendpoint, args).bytes;
    var shown := f[9..9 + |args|];
    assert f[9] == shown[0] && f[10] == shown[1] && f[11] == shown[2];
  }

  /** Decoding a read or write request gives back its group, parameter and operation, and
      mistakes none of it for a value. */
  lemma {:induction false} RequestsDecode(daddr: int, dendpoint: int, group: int, parameter: int,
                                          index: Option<int>, value: seq<int>)
    ensures var read := BuildDmpRead(daddr, dendpoint, group, parameter, index);
            read.Frame? ==> IsByte(group) && IsByte(parameter)
                            && DecodeDmp(read.bytes)
                               == DmpResponse(Some(group), Some(parameter), Some(0x99), None, None)
    ensures var write := BuildDmpWrite(daddr, dendpoint, group, parameter, value);
            write.Frame? ==> IsByte(group) && IsByte(parameter)
                             && DecodeDmp(write.bytes)
                                == DmpResponse(Some(group), Some(parameter), Some(0xA9), None, None)
  {
    hide BuildDmp, DecodeDmp;
    if BuildDmpRead(daddr, dendpoint, group, parameter, index).Frame? {
      var r := ReadArgs(group, parameter, index);
      assert r[0] == group && r[1] == parameter && r[2] == 0x99;
      DecodeBuilt(daddr, dendpoint, r);
    }
    if BuildDmpWrite(daddr, dendpoint, group, parameter, value).Frame? {
      var w := WriteArgs(group, parameter, value);
      assert w[0] == group && w[1] == parameter && w[2] == 0xA9;
      DecodeBuilt(daddr, dendpoint, w);
    }
  }

  /** A response, whatever its header, gives back what it holds; one that is cut short gives no value. */
  lemma {:induction false} ResponseDecodes(header: Octets, group: Octet, parameter: Octet, kind: Octet, length: Octet,
                                           rest: Octets)
    requires |header| == 8 && rest != []
    ensures DecodeDmp([0x55] + header + [group, parameter, 0x19, length, kind] + rest)
            == if length <= |rest|
               then DmpResponse(Some(group), Some(parameter), Some(0x19), Some(kind), Some(rest[..length]))
               else DmpResponse(Some(group), Some(parameter), Some(0x19), None, None)
  {
    var plain: Octets := [0x55] + header + [group, parameter, 0x19, length, kind] + rest;
    assert |plain| == 14 + |rest| && plain[14..] == rest;
    if length <= |rest| {
      assert plain[14..14 + length] == plain[14..][..length];
    }
  }

  /** Anything else that is long enough tells its group, parameter and operation; the rest nothing. */
  lemma {:induction false} OthersDecode(plain: Octets)
    ensures |plain| < 15 || plain[0] != 0x55 ==> DecodeDmp(plain) == DmpResponse(None, None, None, None, None)
    ensures |plain| >= 15 && plain[0] == 0x55 ==>
              && DecodeDmp(plain).group == Some(plain[9]) && DecodeDmp(plain).parameter == Some(plain[10])
              && DecodeDmp(plain).operation == Some(plain[11])
              && (DecodeDmp(plain).value.Some? ==> plain[11] == 0x19)
  {
  }

  // ----- register values -----

  function Pow256(n: nat): nat { if n == 0 then 1 else 256 * Pow256(n - 1) }

  /** `value.to_bytes(size, "big")`. */
  function ToBytes(value: nat, size: nat): (r: Octets)
    requires value < Pow256(size)
    ensures |r| == size
  {
    if size == 0 then [] else ToBytes(value / 256, size - 1) + [value % 256]
  }

  /** `int.from_bytes(value, "big")`. */
  function FromBytes(value: Octets): nat
  {
    if value == [] then 0 else FromBytes(value[..|value| - 1]) * 256 + value[|value| - 1]
  }

  predicate AllFull(value: Octets) { forall i :: 0 <= i < |value| ==> value[i] == 0xFF }

  /** `dmp_uint` of a register's bytes. */
  function DmpUint(value: Option<Octets>): Option<nat>
  {
    if value.None? || value.value == [] || AllFull(value.value) then None
    else Some(FromBytes(value.value))
  }

  /** Big-endian bytes read back, and only the greatest number of a size is all 0xFF. */
  lemma {:induction false} BytesRoundTrip(value: nat, size: nat)
    requires value < Pow256(size)
    ensures FromBytes(ToBytes(value, size)) == value
    ensures value == Pow256(size) - 1 <==> AllFull(ToBytes(value, size))
  {
    if size > 0 {
      hide FromBytes, AllFull, Pow256;
      ByteSplit(value, size);
      BytesRoundTrip(value / 256, size - 1);
      var front: Octets := ToBytes(value / 256, size - 1);
      FromBytesSnoc(front, value % 256);
      FullSnoc(front, value % 256);
    }
  }

  /** The last byte of a number, and the number in front of it. */
  lemma {:induction false} ByteSplit(value: nat, size: nat)
    requires size > 0 && value < Pow256(size)
    ensures value / 256 < Pow256(size - 1) && value == value / 256 * 256 + value % 256
    ensures value == Pow256(size) - 1 <==> value / 256 == Pow256(size - 1) - 1 && value % 256 == 0xFF
  {
  }

  lemma {:induction false} FromBytesSnoc(front: Octets, last: Octet)
    ensures FromBytes(front + [last]) == FromBytes(front) * 256 + last
  {
    assert (front + [last])[..|front|] == front;
  }

  lemma {:induction false} FullSnoc(front: Octets, last: Octet)
    ensures AllFull(front + [last]) <==> AllFull(front) && last == 0xFF
  {
    var all := front + [last];
    assert all[|front|] == last;
    assert forall i :: 0 <= i < |front| ==> front[i] == all[i];
  }

  /** `write_dmp_register` up to the frame, for the controller target. */
  function WriteRegister(group: int, parameter: int, value: int, size: int): Built
  {
    if size < 1 || value < 0 || value > Pow256(size) - 1 then ValueError
    else BuildDmpWrite(0x00, 0x03, group, parameter, ToBytes(value, size))
  }

  /** A register write is sent exactly for byte addresses, sizes of 1 to 242 bytes and values
      that fit, and the value it carries reads back as itself, except that the greatest value
      of the size reads as unavailable. */
  lemma {:induction false} WriteReadsBack(group: int, parameter: int, value: int, size: int)
    ensures WriteRegister(group, parameter, value, size).Frame?
            <==> IsByte(group) && IsByte(parameter) && 1 <= size <= 242 && 0 <= value < Pow256(size)
    ensures WriteRegister(group, parameter, value, size).Frame? ==>
              var f := WriteRegister(group, parameter, value, size).bytes;
              && |f| == size + 16
              && DmpUint(Some(f[14..14 + size])) == if value == Pow256(size) - 1 then None else Some(value)
  {
    hide BuildDmpWrite;
    if size >= 1 && 0 <= value < Pow256(size) {
      var number := ToBytes(value, size);
      WriteBuildableIff(0x00, 0x03, group, parameter, number);
      if WriteRegister(group, parameter, value, size).Frame? {
        ValueInFrame(0x00, 0x03, group, parameter, number);
        BytesRoundTrip(value, size);
      }
    }
  }

  lemma {:induction false} ValueInFrame(daddr: int, dendpoint: int, group: int, parameter: int, value: seq<int>)
    requires BuildDmpWrite(daddr, dendpoint, group, parameter, value).Frame? && AllBytes(value)
    ensures var f := BuildDmpWrite(daddr, dendpoint, group, parameter, value).bytes;
            |f| == |value| + 16 && f[14..14 + |value|] == value
  {
    hide BuildDmp, Xor, WellShaped;
    var args := WriteArgs(group, parameter, value);
    DmpFrameShape(daddr, dendpoint, args);
    var f := BuildDmpWrite(daddr, dendpoint, group, parameter, value).bytes;
    assert f[14..14 + |value|] == f[9..9 + |args|][5..];
    assert args[5..] == value;
  }

  // ----- live messages -----

  datatype LiveMessage = LiveMessage(message: Octets, toRow: Octet, toAddress: Octet)

  /** The body of `cuwifi_t4_message`: a long frame must carry its length twice. */
  function LiveBody(plain: Octets): Option<Octets>
    requires |plain| >= 12
  {
    if plain[0] == 0x55 then
      if plain[1] != plain[|plain| - 1] || plain[1] != |plain| - 3 then None
      else Some(plain[2..|plain| - 1])
    else Some(plain)
  }

  /** `cuwifi_t4_message`. */
  function CuwifiMessage(plain: Octets): Option<LiveMessage>
  {
    if |plain| < 12 || LiveBody(plain).None? || |LiveBody(plain).value| < 10 then None
    else
      var body := LiveBody(plain).value;
      var message := body[7..|body| - 1];
      if body[5] != |message| + 1 then None
      else if !((body[0] == 0x00 && body[1] == 0xFF) || (body[0] == 0xFF && body[1] == 0x01)) then None
      else if body[2] != 0x00 || body[3] != 0x03 then None
      else if body[4] != 0x01 then None
      else Some(LiveMessage(message, body[0], body[1]))
  }

  /** A message of the controller, short or with its length in front and behind. */
  function ControllerBody(message: Octets, toRow: Octet, toAddress: Octet, check: Octet, last: Octet): Octets
    requires |message| < 0xFF
  {
    [toRow, toAddress, 0x00, 0x03, 0x01, |message| + 1, check] + message + [last]
  }

  predicate ToIntegration(toRow: Octet, toAddress: Octet)
  {
    (toRow == 0x00 && toAddress == 0xFF) || (toRow == 0xFF && toAddress == 0x01)
  }

  /** Such messages are accepted, in both forms, and give back what they hold. */
  lemma {:induction false} ControllerMessages(message: Octets, toRow: Octet, toAddress: Octet,
                                              check: Octet, last: Octet)
    requires |message| < 0xFF && ToIntegration(toRow, toAddress)
    ensures |message| >= 4 ==>
              CuwifiMessage(ControllerBody(message, toRow, toAddress, check, last))
              == Some(LiveMessage(message, toRow, toAddress))
    ensures 2 <= |message| <= 0xFF - 8 ==>
              var body := ControllerBody(message, toRow, toAddress, check, last);
              CuwifiMessage([0x55, |body|] + body + [|body|]) == Some(LiveMessage(message, toRow, toAddress))
  {
    var body := ControllerBody(message, toRow, toAddress, check, last);
    assert body[7..|body| - 1] == message;
    if |message| <= 0xFF - 8 {
      var long: Octets := [0x55, |body|] + body + [|body|];
      assert long[2..|long| - 1] == body;
    }
  }

  /** And nothing else is accepted. */
  lemma {:induction false} OnlyControllerMessages(plain: Octets) returns (check: Octet, last: Octet)
    requires CuwifiMessage(plain).Some?
    ensures var live := CuwifiMessage(plain).value;
            && |live.message| < 0xFF && ToIntegration(live.toRow, live.toAddress)
            && var body := ControllerBody(live.message, live.toRow, live.toAddress, check, last);
               plain == body || (|body| <= 0xFF && plain == [0x55, |body|] + body + [|body|])
  {
    var body := LiveBody(plain).value;
    check, last := body[6], body[|body| - 1];
    assert body == body[..7] + body[7..|body| - 1] + [last];
    assert plain[0] == 0x55 ==> plain == plain[..2] + body + plain[|plain| - 1..];
  }

  /** No request this program builds can be taken for a message of the controller. */
  lemma {:induction false} RequestsAreNotLive(daddr: int, dendpoint: int, command: int, args: seq<int>)
    requires |args| >= 5
    ensures BuildDmp(daddr, dendpoint, args).Frame? ==> CuwifiMessage(BuildDmp(daddr, dendpoint, args).bytes).None?
    ensures BuildDep(command, daddr, dendpoint).Frame? ==>
              CuwifiMessage(BuildDep(command, daddr, dendpoint).bytes).None?
  {
    DmpFrameShape(daddr, dendpoint, args);
    DepFrameShape(command, daddr, dendpoint);
    if BuildDmp(daddr, dendpoint, args).Frame? {
      OwnFrameIsNotLive(BuildDmp(daddr, dendpoint, args).bytes);
    }
    if BuildDep(command, daddr, dendpoint).Frame? {
      OwnFrameIsNotLive(BuildDep(command, daddr, dendpoint).bytes);
    }
  }

  lemma {:induction false} OwnFrameIsNotLive(f: Octets)
    requires WellShaped(f)
    ensures CuwifiMessage(f).None?
  {
    if |f| >= 12 && LiveBody(f).Some? {
      var body := LiveBody(f).value;
      assert body[2] == f[4];
    }
  }

  // ----- the T4 cipher -----

  /** `xor_sha256`, for whatever 32-byte digest the key has. */
  function XorStream(data: Octets, digest: Octets): (r: Octets)
    requires |digest| == 32
    ensures |r| == |data| && forall i :: 0 <= i < |r| ==> r[i] == Xor2(data[i], digest[i % 32])
  {
    if data == [] then []
    else
      var last := |data| - 1;
      XorOctet(data[last], digest[last % 32]);
      XorStream(data[..last], digest) + [Xor2(data[last], digest[last % 32])]
  }

  /** Decrypting is encrypting again. */
  lemma {:induction false} XorStreamInverse(data: Octets, digest: Octets)
    requires |digest| == 32
    ensures XorStream(XorStream(data, digest), digest) == data
  {
    hide XorStream;
    forall i | 0 <= i < |data| ensures Xor2(Xor2(data[i], digest[i % 32]), digest[i % 32]) == data[i] {
      XorTwice(data[i], digest[i % 32]);
    }
  }
}
