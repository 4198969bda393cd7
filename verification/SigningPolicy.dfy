/** The HSM signing policy (tools/hsm_server/policy.rs) and what accepting a message implies
    about executing it. */
module SigningPolicy {
  import opened Base

  /** An account address. The program ids and the eight tip accounts that policy.rs names are
      constructors; every other address is opaque. */
  datatype Key = System | ComputeBudget | Token | AtaProgram | ClmmMainnet | ClmmDevnet | Tip(n: nat) | Other(id: nat)

  /** `find_program_address` of (owner, token program, mint): any function of the three. */
  type AtaOf = (Key, Key, Key) -> Key

  datatype Instruction = Instruction(program: u8, accounts: seq<u8>, data: seq<u8>)
  datatype Message = Message(keys: seq<Key>, requiredSignatures: u8, instructions: seq<Instruction>)
  datatype Policy = Policy(maxTransfer: u64, maxCuPrice: u64, extraDestinations: set<Key>)

  datatype Error =
    | NotFeePayer | ExtraSignatures | IndexOutOfRange | MissingAccount
    | AtaKind | AtaMissing | AtaOwner | AtaTokenProgram | AtaAddress
    | CuMalformed | CuPriceAboveCap | CuUnknown
    | SystemKind | SystemSource | SystemDestination
    | SyncForeign | CloseForeign | TokenKind
    | ClmmKind | ClmmPayer | ClmmAccounts
    | ProgramNotAllowed | AboveCap

  const CLMM_SWAP: seq<u8> := [248, 198, 158, 145, 225, 117, 135, 200]

  predicate IsTip(k: Key) {
    k.Tip? && k.n < 8
  }

  predicate IsClmm(k: Key) {
    k == ClmmMainnet || k == ClmmDevnet
  }

  /** `key(i)`: Err when the index is out of range. */
  function KeyAt(m: Message, i: u8): Option<Key> {
    if i < |m.keys| then Some(m.keys[i]) else None
  }

  /** `acc(n)`: the n-th account of an instruction. */
  function Account(m: Message, ix: Instruction, n: nat): Option<Key> {
    if n < |ix.accounts| then KeyAt(m, ix.accounts[n]) else None
  }

  /** `u64::from_le_bytes` of eight bytes. */
  function Le64(b: seq<u8>): u64
    requires |b| == 8
  {
    b[0] as int + 0x100 * (b[1] as int) + 0x1_0000 * (b[2] as int) + 0x100_0000 * (b[3] as int) +
    0x1_0000_0000 * (b[4] as int) + 0x100_0000_0000 * (b[5] as int) + 0x1_0000_0000_0000 * (b[6] as int) +
    0x100_0000_0000_0000 * (b[7] as int)
  }

  predicate IsTransfer(data: seq<u8>) {
    |data| == 12 && data[..4] == [2, 0, 0, 0]
  }

  // ---------------------------------------------------------------- what is acceptable, order-free

  /** An ATA-program instruction that creates an associated token account of the signer. */
  predicate CreatesOwnAta(m: Message, signer: Key, ata: AtaOf, ix: Instruction) {
    && (ix.data == [] || ix.data == [0] || ix.data == [1])
    && |ix.accounts| >= 6 && (forall n :: 0 <= n < |ix.accounts| ==> Account(m, ix, n).Some?)
    && Account(m, ix, 0) == Some(signer) && Account(m, ix, 2) == Some(signer)
    && Account(m, ix, 5) == Some(Token)
    && Account(m, ix, 1) == Some(ata(signer, Account(m, ix, 3).value, Token))
  }

  predicate IsAta(m: Message, ix: Instruction) {
    KeyAt(m, ix.program) == Some(AtaProgram)
  }

  /** The accounts the ATA-program instructions of the message create. */
  function OwnAtas(m: Message, ixs: seq<Instruction>): (r: set<Key>)
    ensures forall k :: k in r <==> exists i :: 0 <= i < |ixs| && IsAta(m, ixs[i]) && Account(m, ixs[i], 1) == Some(k)
  {
    set i | 0 <= i < |ixs| && IsAta(m, ixs[i]) && Account(m, ixs[i], 1).Some? :: Account(m, ixs[i], 1).value
  }

  predicate Approved(policy: Policy, own: set<Key>, to: Key) {
    to in own || IsTip(to) || to in policy.extraDestinations
  }

  /** What each program's instructions may look like. */
  predicate Allowed(m: Message, signer: Key, policy: Policy, own: set<Key>, ix: Instruction) {
    match KeyAt(m, ix.program)
    case None => false
    case Some(ComputeBudget) =>
      |ix.data| > 0 &&
      (ix.data[0] in {1, 2, 4} || (ix.data[0] == 3 && |ix.data| >= 9 && Le64(ix.data[1..9]) <= policy.maxCuPrice))
    case Some(AtaProgram) => true
    case Some(System) =>
      IsTransfer(ix.data) && Account(m, ix, 0) == Some(signer) && Account(m, ix, 1).Some? &&
      (Account(m, ix, 1).value == signer || Approved(policy, own, Account(m, ix, 1).value))
    case Some(Token) =>
      |ix.data| == 1 && Account(m, ix, 0).Some? && Account(m, ix, 0).value in own &&
      (ix.data[0] == 17 || (ix.data[0] == 9 && Account(m, ix, 1) == Some(signer) && Account(m, ix, 2) == Some(signer)))
    case Some(p) =>
      IsClmm(p) && |ix.data| >= 8 && ix.data[..8] == CLMM_SWAP && Account(m, ix, 0) == Some(signer) &&
      Account(m, ix, 3).Some? && Account(m, ix, 3).value in own &&
      Account(m, ix, 4).Some? && Account(m, ix, 4).value in own
  }

  /** Lamports an instruction moves from the signer to another account by System transfer. */
  function Outflow(m: Message, signer: Key, ix: Instruction): u64 {
    if KeyAt(m, ix.program) == Some(System) && IsTransfer(ix.data) && Account(m, ix, 1) != Some(signer)
    then Le64(ix.data[4..12]) else 0
  }

  function OutflowOf(m: Message, signer: Key): Instruction -> nat {
    ix => Outflow(m, signer, ix)
  }

  function SumOf(f: Instruction -> nat, s: seq<Instruction>): nat {
    if s == [] then 0 else SumOf(f, s[..|s| - 1]) + f(s[|s| - 1])
  }

  /** The exact, unsaturated total that leaves the signer's account. */
  function TotalOutflow(m: Message, signer: Key, ixs: seq<Instruction>): nat {
    SumOf(OutflowOf(m, signer), ixs)
  }

  predicate AtaPassOk(m: Message, signer: Key, ata: AtaOf, ix: Instruction) {
    KeyAt(m, ix.program).Some? && (IsAta(m, ix) ==> CreatesOwnAta(m, signer, ata, ix))
  }

  /** Acceptance, stated without any order of checking. */
  ghost predicate Accepts(m: Message, signer: Key, policy: Policy, ata: AtaOf) {
    && m.keys != [] && m.keys[0] == signer && m.requiredSignatures == 1
    && (forall i :: 0 <= i < |m.instructions| ==> AtaPassOk(m, signer, ata, m.instructions[i]))
    && (forall i :: 0 <= i < |m.instructions| ==>
       Allowed(m, signer, policy, OwnAtas(m, m.instructions), m.instructions[i]))
    && Min(TotalOutflow(m, signer, m.instructions), U64_MAX) <= policy.maxTransfer
  }

  // ---------------------------------------------------------------- the checker

  /** The checks of one pass-1 instruction. */
  method CheckAta(m: Message, signer: Key, ata: AtaOf, ix: Instruction) returns (r: Result<Key, Error>)
    ensures r.Ok? <==> CreatesOwnAta(m, signer, ata, ix)
    ensures r.Ok? ==> Account(m, ix, 1) == Some(r.value)
  {
    if !(ix.data == [] || ix.data == [0] || ix.data == [1]) {
      return Err(AtaKind);
    }
    var a: seq<Key> := [];
    for n := 0 to |ix.accounts|
      invariant |a| == n && forall k :: 0 <= k < n ==> Account(m, ix, k) == Some(a[k])
    {
      var k := Account(m, ix, n);
      if k.None? {
        return Err(IndexOutOfRange);
      }
      a := a + [k.value];
    }
    if |a| < 6 {
      return Err(AtaMissing);
    }
    if a[0] != signer || a[2] != signer {
      return Err(AtaOwner);
    }
    if a[5] != Token {
      return Err(AtaTokenProgram);
    }
    if a[1] != ata(signer, a[3], a[5]) {
      return Err(AtaAddress);
    }
    return Ok(a[1]);
  }

  /** The checks of one pass-2 instruction; Ok carries the lamports it moves out. */
  method CheckInstruction(m: Message, signer: Key, policy: Policy, own: set<Key>, ix: Instruction)
    returns (r: Result<u64, Error>)
    requires KeyAt(m, ix.program).Some?
    ensures r.Ok? <==> Allowed(m, signer, policy, own, ix)
    ensures r.Ok? ==> r.value == Outflow(m, signer, ix)
  {
    var program := KeyAt(m, ix.program).value;
    if program == ComputeBudget {
      if |ix.data| == 0 {
        return Err(CuUnknown);
      } else if ix.data[0] == 3 {
        if |ix.data| < 9 {
          return Err(CuMalformed);
        }
        if Le64(ix.data[1..9]) > policy.maxCuPrice {
          return Err(CuPriceAboveCap);
        }
      } else if ix.data[0] != 1 && ix.data[0] != 2 && ix.data[0] != 4 {
        return Err(CuUnknown);
      }
      return Ok(0);
    } else if program == AtaProgram {
      return Ok(0);
    } else if program == System {
      if |ix.data| != 12 || ix.data[..4] != [2, 0, 0, 0] {
        return Err(SystemKind);
      }
      var lamports := Le64(ix.data[4..12]);
      var from, to := Account(m, ix, 0), Account(m, ix, 1);
      if from.None? || to.None? {
        return Err(MissingAccount);
      }
      if from.value != signer {
        return Err(SystemSource);
      }
      if to.value == signer {
        return Ok(0);
      }
      if !(to.value in own || IsTip(to.value) || to.value in policy.extraDestinations) {
        return Err(SystemDestination);
      }
      return Ok(lamports);
    } else if program == Token {
      if |ix.data| != 1 {
        return Err(TokenKind);
      }
      var a0 := Account(m, ix, 0);
      if ix.data[0] == 17 {
        if a0.None? || a0.value !in own {
          return Err(SyncForeign);
        }
      } else if ix.data[0] == 9 {
        if a0.None? || a0.value !in own || Account(m, ix, 1) != Some(signer) || Account(m, ix, 2) != Some(signer) {
          return Err(CloseForeign);
        }
      } else {
        return Err(TokenKind);
      }
      return Ok(0);
    } else if IsClmm(program) {
      if |ix.data| < 8 || ix.data[..8] != CLMM_SWAP {
        return Err(ClmmKind);
      }
      if Account(m, ix, 0) != Some(signer) {
        return Err(ClmmPayer);
      }
      var a3, a4 := Account(m, ix, 3), Account(m, ix, 4);
      if a3.None? || a4.None? || a3.value !in own || a4.value !in own {
        return Err(ClmmAccounts);
      }
      return Ok(0);
    }
    return Err(ProgramNotAllowed);
  }

  /** Pass 1 of `check`: the signer's ATAs this transaction creates. */
  method CollectAtas(m: Message, signer: Key, ata: AtaOf) returns (r: Result<set<Key>, Error>)
    ensures r.Ok? <==> (forall i :: 0 <= i < |m.instructions| ==> AtaPassOk(m, signer, ata, m.instructions[i]))
    ensures r.Ok? ==> r.value == OwnAtas(m, m.instructions)
  {
    var ixs := m.instructions;
    var own: set<Key> := {};
    for i := 0 to |ixs|
      invariant own == OwnAtas(m, ixs[..i])
      invariant forall j :: 0 <= j < i ==> AtaPassOk(m, signer, ata, ixs[j])
    {
      OwnAtasSnoc(m, ixs, i);
      var program := KeyAt(m, ixs[i].program);
      if program.None? {
        return Err(IndexOutOfRange);
      }
      if program.value != AtaProgram {
        continue;
      }
      var a := CheckAta(m, signer, ata, ixs[i]);
      if a.Err? {
        return Err(a.error);
      }
      own := own + {a.value};
    }
    assert ixs[..|ixs|] == ixs;
    return Ok(own);
  }

  /** Pass 2 of `check`: every instruction, with the saturating outflow total. */
  method SumMoved(m: Message, signer: Key, policy: Policy, own: set<Key>) returns (r: Result<u64, Error>)
    requires forall i :: 0 <= i < |m.instructions| ==> KeyAt(m, m.instructions[i].program).Some?
    ensures r.Ok? <==> (forall i :: 0 <= i < |m.instructions| ==> Allowed(m, signer, policy, own, m.instructions[i]))
    ensures r.Ok? ==> r.value == Min(TotalOutflow(m, signer, m.instructions), U64_MAX)
  {
    var ixs := m.instructions;
    var movedOut: u64 := 0;
    for i := 0 to |ixs|
      invariant forall j :: 0 <= j < i ==> Allowed(m, signer, policy, own, ixs[j])
      invariant movedOut == Min(TotalOutflow(m, signer, ixs[..i]), U64_MAX)
    {
      var moved := CheckInstruction(m, signer, policy, own, ixs[i]);
      if moved.Err? {
        return Err(moved.error);
      }
      assert ixs[..i + 1][..i] == ixs[..i];
      movedOut := SatAdd64(movedOut, moved.value);
    }
    assert ixs[..|ixs|] == ixs;
    return Ok(movedOut);
  }

  /** `check`: two passes with early returns, accepting exactly the acceptable messages. */
  method Check(m: Message, signer: Key, policy: Policy, ata: AtaOf) returns (r: Result<(), Error>)
    ensures r.Ok? <==> Accepts(m, signer, policy, ata)
  {
    if |m.keys| == 0 || m.keys[0] != signer {
      return Err(NotFeePayer);
    }
    if m.requiredSignatures != 1 {
      return Err(ExtraSignatures);
    }
    var own := CollectAtas(m, signer, ata);
    if own.Err? {
      return Err(own.error);
    }
    assert forall i :: 0 <= i < |m.instructions| ==> AtaPassOk(m, signer, ata, m.instructions[i]);
    var moved := SumMoved(m, signer, policy, own.value);
    if moved.Err? {
      return Err(moved.error);
    }
    if moved.value > policy.maxTransfer {
      return Err(AboveCap);
    }
    return Ok(());
  }

  lemma OwnAtasSnoc(m: Message, ixs: seq<Instruction>, i: nat)
    requires i < |ixs|
    ensures OwnAtas(m, ixs[..i + 1]) ==
            OwnAtas(m, ixs[..i]) +
            (if IsAta(m, ixs[i]) && Account(m, ixs[i], 1).Some? then {Account(m, ixs[i], 1).value} else {})
  {
    var a, b := ixs[..i], ixs[..i + 1];
    forall k | k in OwnAtas(m, b)
      ensures k in OwnAtas(m, a) || (IsAta(m, ixs[i]) && Account(m, ixs[i], 1) == Some(k))
    {
      var j :| 0 <= j < |b| && IsAta(m, b[j]) && Account(m, b[j], 1) == Some(k);
      assert j < i ==> a[j] == b[j];
    }
    forall k | k in OwnAtas(m, a)
      ensures k in OwnAtas(m, b)
    {
      var j :| 0 <= j < |a| && IsAta(m, a[j]) && Account(m, a[j], 1) == Some(k);
      assert b[j] == a[j];
    }
    if IsAta(m, ixs[i]) && Account(m, ixs[i], 1).Some? {
      assert b[i] == ixs[i];
    }
  }

  // ---------------------------------------------------------------- order and policy do not surprise

  lemma {:induction false} SumPermutes(f: Instruction -> nat, a: seq<Instruction>, b: seq<Instruction>)
    requires multiset(a) == multiset(b)
    ensures SumOf(f, a) == SumOf(f, b)
    decreases |a|
  {
    assert |a| == |multiset(a)| == |multiset(b)| == |b|;
    if a != [] {
      var init, last := a[..|a| - 1], a[|a| - 1];
      assert a == init + [last];
      assert last in multiset(b);
      var k :| 0 <= k < |b| && b[k] == last;
      var front, back := b[..k], b[k + 1..];
      assert b == front + [last] + back;
      assert multiset(front + back) == multiset(b) - multiset{last};
      SumPermutes(f, init, front + back);
      SumMiddle(f, front, last, back);
    }
  }

  lemma SumSnoc(f: Instruction -> nat, s: seq<Instruction>, x: Instruction)
    ensures SumOf(f, s + [x]) == SumOf(f, s) + f(x)
  {
    assert (s + [x])[..|s|] == s;
  }

  lemma {:induction false} SumMiddle(f: Instruction -> nat, front: seq<Instruction>, x: Instruction,
      back: seq<Instruction>)
    ensures SumOf(f, front + [x] + back) == SumOf(f, front + back) + f(x)
    decreases |back|
  {
    if back == [] {
      SumSnoc(f, front, x);
      assert front + [x] + back == front + [x] && front + back == front;
    } else {
      var init, last := back[..|back| - 1], back[|back| - 1];
      SumMiddle(f, front, x, init);
      SumSnoc(f, front + [x] + init, last);
      SumSnoc(f, front + init, last);
      assert front + [x] + back == front + [x] + init + [last];
      assert front + back == front + init + [last];
    }
  }

  lemma {:induction false} SumCongruent(f: Instruction -> nat, g: Instruction -> nat, s: seq<Instruction>)
    requires forall ix :: f(ix) == g(ix)
    ensures SumOf(f, s) == SumOf(g, s)
  {
    if s != [] {
      SumCongruent(f, g, s[..|s| - 1]);
    }
  }

  /** Reordering the instructions never changes the verdict. */
  lemma OrderDoesNotMatter(m: Message, ixs: seq<Instruction>, signer: Key, policy: Policy, ata: AtaOf)
    requires multiset(ixs) == multiset(m.instructions)
    ensures Accepts(m, signer, policy, ata) <==> Accepts(m.(instructions := ixs), signer, policy, ata)
  {
    var m' := m.(instructions := ixs);
    if Accepts(m, signer, policy, ata) {
      AcceptsPermuted(m, m', signer, policy, ata);
    }
    if Accepts(m', signer, policy, ata) {
      AcceptsPermuted(m', m, signer, policy, ata);
    }
  }

  lemma AcceptsPermuted(m: Message, m': Message, signer: Key, policy: Policy, ata: AtaOf)
    requires m' == m.(instructions := m'.instructions) && multiset(m'.instructions) == multiset(m.instructions)
    requires Accepts(m, signer, policy, ata)
    ensures Accepts(m', signer, policy, ata)
  {
    var a, b := m.instructions, m'.instructions;
    SumPermutes(OutflowOf(m, signer), a, b);
    SumCongruent(OutflowOf(m', signer), OutflowOf(m, signer), b);
    SameAtas(m, a, b);
    SameAtasView(m, m', b);
    ChecksPermuted(m, m', signer, policy, ata);
  }

  lemma SameAtasView(m: Message, m': Message, ixs: seq<Instruction>)
    requires m'.keys == m.keys
    ensures OwnAtas(m', ixs) == OwnAtas(m, ixs)
  {
    assert forall i :: 0 <= i < |ixs| ==> IsAta(m', ixs[i]) == IsAta(m, ixs[i]);
    assert forall i :: 0 <= i < |ixs| ==> Account(m', ixs[i], 1) == Account(m, ixs[i], 1);
  }

  lemma ChecksPermuted(m: Message, m': Message, signer: Key, policy: Policy, ata: AtaOf)
    requires m'.keys == m.keys && multiset(m'.instructions) == multiset(m.instructions) &&
             Accepts(m, signer, policy, ata)
    ensures var own, b := OwnAtas(m, m.instructions), m'.instructions;
            forall i :: 0 <= i < |b| ==> AtaPassOk(m', signer, ata, b[i]) && Allowed(m', signer, policy, own, b[i])
  {
    var a, b := m.instructions, m'.instructions;
    forall i | 0 <= i < |b|
      ensures AtaPassOk(m', signer, ata, b[i]) && Allowed(m', signer, policy, OwnAtas(m, a), b[i])
    {
      var j := IndexIn(a, b, i);
      CheckedAlike(m, m', signer, policy, ata, j, b[i]);
    }
  }

  lemma CheckedAlike(m: Message, m': Message, signer: Key, policy: Policy, ata: AtaOf, j: nat, ix: Instruction)
    requires m'.keys == m.keys && Accepts(m, signer, policy, ata) && j < |m.instructions| && m.instructions[j] == ix
    ensures AtaPassOk(m', signer, ata, ix) && Allowed(m', signer, policy, OwnAtas(m, m.instructions), ix)
  {
    SameView(m, m', signer, policy, ata, OwnAtas(m, m.instructions), ix);
  }

  lemma IndexIn(a: seq<Instruction>, b: seq<Instruction>, i: nat) returns (j: nat)
    requires multiset(a) == multiset(b) && i < |b|
    ensures j < |a| && a[j] == b[i]
  {
    assert b[i] in multiset(b);
    assert b[i] in multiset(a);
    j :| 0 <= j < |a| && a[j] == b[i];
  }

  /** What is checked about one instruction only looks at the account keys of the message. */
  lemma SameView(m: Message, m': Message, signer: Key, policy: Policy, ata: AtaOf, own: set<Key>, ix: Instruction)
    requires m'.keys == m.keys
    ensures AtaPassOk(m', signer, ata, ix) == AtaPassOk(m, signer, ata, ix)
    ensures Allowed(m', signer, policy, own, ix) == Allowed(m, signer, policy, own, ix)
  {
    assert forall n :: Account(m', ix, n) == Account(m, ix, n);
  }

  lemma SameAtas(m: Message, a: seq<Instruction>, b: seq<Instruction>)
    requires multiset(a) == multiset(b)
    ensures OwnAtas(m, a) == OwnAtas(m, b)
  {
    forall k
      ensures k in OwnAtas(m, a) <==> k in OwnAtas(m, b)
    {
      if k in OwnAtas(m, a) {
        var i :| 0 <= i < |a| && IsAta(m, a[i]) && Account(m, a[i], 1) == Some(k);
        assert a[i] in multiset(b);
        var j :| 0 <= j < |b| && b[j] == a[i];
      }
      if k in OwnAtas(m, b) {
        var i :| 0 <= i < |b| && IsAta(m, b[i]) && Account(m, b[i], 1) == Some(k);
        assert b[i] in multiset(a);
        var j :| 0 <= j < |a| && a[j] == b[i];
      }
    }
  }

  ghost predicate AtLeastAsPermissive(p: Policy, q: Policy) {
    p.maxTransfer <= q.maxTransfer && p.maxCuPrice <= q.maxCuPrice && p.extraDestinations <= q.extraDestinations
  }

  /** Loosening the policy never turns an accepted message into a rejected one. */
  lemma PolicyIsMonotone(m: Message, signer: Key, p: Policy, q: Policy, ata: AtaOf)
    requires AtLeastAsPermissive(p, q) && Accepts(m, signer, p, ata)
    ensures Accepts(m, signer, q, ata)
  {
    forall i | 0 <= i < |m.instructions|
      ensures Allowed(m, signer, q, OwnAtas(m, m.instructions), m.instructions[i])
    {
      assert Allowed(m, signer, p, OwnAtas(m, m.instructions), m.instructions[i]);
    }
  }

  // ---------------------------------------------------------------- what is accepted, from keys and bytes

  /** The value of little-endian bytes. */
  function LittleEndian(b: seq<u8>): nat {
    if b == [] then 0 else b[0] + 0x100 * LittleEndian(b[1..])
  }

  lemma {:induction false} Le64IsLittleEndian(b: seq<u8>)
    requires |b| == 8
    ensures Le64(b) == LittleEndian(b)
  {
    FourBytes(b);
    FourBytes(b[4..]);
    assert b[4..][4..] == [];
  }

  lemma {:induction false} FourBytes(b: seq<u8>)
    requires |b| >= 4
    ensures LittleEndian(b) ==
            b[0] as int + 0x100 * (b[1] as int) + 0x1_0000 * (b[2] as int) + 0x100_0000 * (b[3] as int) +
            0x1_0000_0000 * LittleEndian(b[4..])
  {
    var b1, b2 := b[1..], b[2..];
    assert b1[1..] == b2;
    var b3 := b[3..];
    assert b2[1..] == b3;
    assert b3[1..] == b[4..];
    assert LittleEndian(b) == b[0] + 0x100 * LittleEndian(b1);
    assert LittleEndian(b1) == b[1] + 0x100 * LittleEndian(b2);
    assert LittleEndian(b2) == b[2] + 0x100 * LittleEndian(b3);
    assert LittleEndian(b3) == b[3] + 0x100 * LittleEndian(b[4..]);
  }

  /** The n-th account of the instruction is this key. */
  predicate Names(m: Message, ix: Instruction, n: nat, k: Key) {
    n < |ix.accounts| && ix.accounts[n] < |m.keys| && m.keys[ix.accounts[n]] == k
  }

  predicate Runs(m: Message, ix: Instruction, program: Key) {
    ix.program < |m.keys| && m.keys[ix.program] == program
  }

  /** An instruction that makes `k` the associated token account of the signer for some mint. */
  ghost predicate Creates(m: Message, signer: Key, ata: AtaOf, ix: Instruction, k: Key) {
    && Runs(m, ix, AtaProgram) && Names(m, ix, 1, k)
    && exists mint :: Names(m, ix, 3, mint) && k == ata(signer, mint, Token)
  }

  ghost predicate CreatedForSigner(m: Message, signer: Key, ata: AtaOf, k: Key) {
    exists j :: 0 <= j < |m.instructions| && Creates(m, signer, ata, m.instructions[j], k)
  }

  /** The n-th account of the instruction is one that the message creates for the signer. */
  ghost predicate NamesCreated(m: Message, signer: Key, ata: AtaOf, ix: Instruction, n: nat) {
    exists k :: Names(m, ix, n, k) && CreatedForSigner(m, signer, ata, k)
  }

  /** The policy for one instruction, in its own words: the signer pays and owns every account that is
      created; a compute-unit price is within the cap; lamports go from the signer to itself, its new
      accounts, a tip account or an extra destination; only its new accounts are synced or closed, and
      closed back to it; a swap goes from one of its new accounts to another. Nothing else is allowed. */
  ghost predicate Permitted(m: Message, signer: Key, policy: Policy, ata: AtaOf, ix: Instruction) {
    || (Runs(m, ix, AtaProgram) && ix.data in {[], [0], [1]} && (exists k :: Creates(m, signer, ata, ix, k)) &&
        Names(m, ix, 0, signer) && Names(m, ix, 2, signer) && Names(m, ix, 5, Token) &&
        forall n :: 0 <= n < |ix.accounts| ==> ix.accounts[n] < |m.keys|)
    || (Runs(m, ix, ComputeBudget) && |ix.data| > 0 && 1 <= ix.data[0] <= 4 &&
        (ix.data[0] == 3 ==> |ix.data| >= 9 && LittleEndian(ix.data[1..9]) <= policy.maxCuPrice))
    || (Runs(m, ix, System) && |ix.data| == 12 && LittleEndian(ix.data[..4]) == 2 && Names(m, ix, 0, signer) &&
        (Names(m, ix, 1, signer) || NamesCreated(m, signer, ata, ix, 1) ||
         exists to :: Names(m, ix, 1, to) && (IsTip(to) || to in policy.extraDestinations)))
    || (Runs(m, ix, Token) && NamesCreated(m, signer, ata, ix, 0) &&
        (ix.data == [17] || (ix.data == [9] && Names(m, ix, 1, signer) && Names(m, ix, 2, signer))))
    || ((Runs(m, ix, ClmmMainnet) || Runs(m, ix, ClmmDevnet)) && CLMM_SWAP <= ix.data && Names(m, ix, 0, signer) &&
        NamesCreated(m, signer, ata, ix, 3) && NamesCreated(m, signer, ata, ix, 4))
  }

  lemma CreatesOne(m: Message, signer: Key, ata: AtaOf, ix: Instruction)
    requires IsAta(m, ix) && CreatesOwnAta(m, signer, ata, ix)
    ensures Account(m, ix, 1).Some? && Creates(m, signer, ata, ix, Account(m, ix, 1).value)
  {
    var mint := Account(m, ix, 3);
    assert mint.Some?;
    assert Names(m, ix, 3, mint.value);
  }

  ghost predicate FirstPassOk(m: Message, signer: Key, ata: AtaOf) {
    forall i :: 0 <= i < |m.instructions| ==> AtaPassOk(m, signer, ata, m.instructions[i])
  }

  /** Whatever the first pass collects are associated token accounts of the signer. */
  lemma OwnAtasAreTheSigners(m: Message, signer: Key, ata: AtaOf, k: Key)
    requires FirstPassOk(m, signer, ata)
    ensures k in OwnAtas(m, m.instructions) <==> CreatedForSigner(m, signer, ata, k)
    ensures k in OwnAtas(m, m.instructions) ==> exists mint :: k == ata(signer, mint, Token)
  {
    if k in OwnAtas(m, m.instructions) {
      CollectedIsCreated(m, signer, ata, k);
    }
    if CreatedForSigner(m, signer, ata, k) {
      var i :| 0 <= i < |m.instructions| && Creates(m, signer, ata, m.instructions[i], k);
      assert IsAta(m, m.instructions[i]) && Account(m, m.instructions[i], 1) == Some(k);
    }
  }

  lemma CollectedIsCreated(m: Message, signer: Key, ata: AtaOf, k: Key)
    requires FirstPassOk(m, signer, ata) && k in OwnAtas(m, m.instructions)
    ensures CreatedForSigner(m, signer, ata, k)
  {
    var ixs := m.instructions;
    var i :| 0 <= i < |ixs| && IsAta(m, ixs[i]) && Account(m, ixs[i], 1) == Some(k);
    CreatesOne(m, signer, ata, ixs[i]);
    assert Creates(m, signer, ata, ixs[i], k);
  }

  lemma AtaPermitted(m: Message, signer: Key, policy: Policy, ata: AtaOf, ix: Instruction)
    requires IsAta(m, ix)
    ensures Permitted(m, signer, policy, ata, ix) <==> CreatesOwnAta(m, signer, ata, ix)
  {
    if CreatesOwnAta(m, signer, ata, ix) {
      CreatesOne(m, signer, ata, ix);
      forall n | 0 <= n < |ix.accounts|
        ensures ix.accounts[n] < |m.keys|
      {
        assert Account(m, ix, n).Some?;
      }
    }
  }

  lemma ComputePermitted(m: Message, signer: Key, policy: Policy, ata: AtaOf, own: set<Key>, ix: Instruction)
    requires KeyAt(m, ix.program) == Some(ComputeBudget)
    ensures Permitted(m, signer, policy, ata, ix) <==> Allowed(m, signer, policy, own, ix)
  {
    if |ix.data| >= 9 {
      Le64IsLittleEndian(ix.data[1..9]);
    }
  }

  lemma TransferTag(data: seq<u8>)
    requires |data| == 4
    ensures LittleEndian(data) == 2 <==> data == [2, 0, 0, 0]
  {
    FourBytes(data);
    assert data == [data[0], data[1], data[2], data[3]];
  }

  lemma CreatedOrNot(m: Message, signer: Key, ata: AtaOf, own: set<Key>, ix: Instruction, n: nat)
    requires forall k :: k in own <==> CreatedForSigner(m, signer, ata, k)
    ensures NamesCreated(m, signer, ata, ix, n) <==> Account(m, ix, n).Some? && Account(m, ix, n).value in own
  {
    assert Account(m, ix, n).Some? ==> Names(m, ix, n, Account(m, ix, n).value);
  }

  lemma SystemPermitted(m: Message, signer: Key, policy: Policy, ata: AtaOf, own: set<Key>, ix: Instruction)
    requires KeyAt(m, ix.program) == Some(System) && forall k :: k in own <==> CreatedForSigner(m, signer, ata, k)
    ensures Permitted(m, signer, policy, ata, ix) <==> Allowed(m, signer, policy, own, ix)
  {
    if |ix.data| == 12 {
      TransferTag(ix.data[..4]);
    }
    CreatedOrNot(m, signer, ata, own, ix, 1);
    assert Account(m, ix, 1).Some? ==> Names(m, ix, 1, Account(m, ix, 1).value);
  }

  lemma TokenPermitted(m: Message, signer: Key, policy: Policy, ata: AtaOf, own: set<Key>, ix: Instruction)
    requires KeyAt(m, ix.program) == Some(Token) && forall k :: k in own <==> CreatedForSigner(m, signer, ata, k)
    ensures Permitted(m, signer, policy, ata, ix) <==> Allowed(m, signer, policy, own, ix)
  {
    if |ix.data| == 1 {
      assert ix.data == [ix.data[0]];
    }
    CreatedOrNot(m, signer, ata, own, ix, 0);
  }

  lemma SwapPermitted(m: Message, signer: Key, policy: Policy, ata: AtaOf, own: set<Key>, ix: Instruction)
    requires KeyAt(m, ix.program) in {Some(ClmmMainnet), Some(ClmmDevnet)}
    requires forall k :: k in own <==> CreatedForSigner(m, signer, ata, k)
    ensures Permitted(m, signer, policy, ata, ix) <==> Allowed(m, signer, policy, own, ix)
  {
    CreatedOrNot(m, signer, ata, own, ix, 3);
    CreatedOrNot(m, signer, ata, own, ix, 4);
  }

  lemma PermittedExactly(m: Message, signer: Key, policy: Policy, ata: AtaOf, own: set<Key>, ix: Instruction)
    requires forall k :: k in own <==> CreatedForSigner(m, signer, ata, k)
    ensures Permitted(m, signer, policy, ata, ix) <==>
            AtaPassOk(m, signer, ata, ix) && Allowed(m, signer, policy, own, ix)
  {
    match KeyAt(m, ix.program)
    case None =>
    case Some(AtaProgram) => AtaPermitted(m, signer, policy, ata, ix);
    case Some(ComputeBudget) => ComputePermitted(m, signer, policy, ata, own, ix);
    case Some(System) => SystemPermitted(m, signer, policy, ata, own, ix);
    case Some(Token) => TokenPermitted(m, signer, policy, ata, own, ix);
    case Some(_) =>
      if IsClmm(KeyAt(m, ix.program).value) {
        SwapPermitted(m, signer, policy, ata, own, ix);
      }
  }

  /** Acceptance, from keys and bytes alone. */
  lemma AcceptsExactly(m: Message, signer: Key, policy: Policy, ata: AtaOf)
    ensures Accepts(m, signer, policy, ata) <==>
            && |m.keys| > 0 && m.keys[0] == signer && m.requiredSignatures == 1
            && (forall i :: 0 <= i < |m.instructions| ==> Permitted(m, signer, policy, ata, m.instructions[i]))
            && Min(TotalOutflow(m, signer, m.instructions), U64_MAX) <= policy.maxTransfer
  {
    PermittedIsBoth(m, signer, policy, ata);
  }

  ghost predicate AllPermitted(m: Message, signer: Key, policy: Policy, ata: AtaOf) {
    forall i :: 0 <= i < |m.instructions| ==> Permitted(m, signer, policy, ata, m.instructions[i])
  }

  ghost predicate SecondPassOk(m: Message, signer: Key, policy: Policy) {
    forall i :: 0 <= i < |m.instructions| ==> Allowed(m, signer, policy, OwnAtas(m, m.instructions), m.instructions[i])
  }

  lemma PermittedIsBoth(m: Message, signer: Key, policy: Policy, ata: AtaOf)
    ensures AllPermitted(m, signer, policy, ata) <==> FirstPassOk(m, signer, ata) && SecondPassOk(m, signer, policy)
  {
    var ixs := m.instructions;
    if AllPermitted(m, signer, policy, ata) {
      forall i | 0 <= i < |ixs|
        ensures AtaPassOk(m, signer, ata, ixs[i])
      {
        PassOne(m, signer, policy, ata, ixs[i]);
      }
    }
    if FirstPassOk(m, signer, ata) {
      forall i | 0 <= i < |ixs|
        ensures Permitted(m, signer, policy, ata, ixs[i]) <==> Allowed(m, signer, policy, OwnAtas(m, ixs), ixs[i])
      {
        OneOfAccepted(m, signer, policy, ata, i);
      }
    }
  }

  lemma OneOfAccepted(m: Message, signer: Key, policy: Policy, ata: AtaOf, i: nat)
    requires FirstPassOk(m, signer, ata) && i < |m.instructions|
    ensures Permitted(m, signer, policy, ata, m.instructions[i]) <==>
            Allowed(m, signer, policy, OwnAtas(m, m.instructions), m.instructions[i])
  {
    forall k
      ensures k in OwnAtas(m, m.instructions) <==> CreatedForSigner(m, signer, ata, k)
    {
      OwnAtasAreTheSigners(m, signer, ata, k);
    }
    PermittedExactly(m, signer, policy, ata, OwnAtas(m, m.instructions), m.instructions[i]);
  }

  lemma PassOne(m: Message, signer: Key, policy: Policy, ata: AtaOf, ix: Instruction)
    ensures Permitted(m, signer, policy, ata, ix) ==> AtaPassOk(m, signer, ata, ix)
  {
    if IsAta(m, ix) {
      AtaPermitted(m, signer, policy, ata, ix);
    }
  }

  // ---------------------------------------------------------------- executing an accepted message

  /** Lamport balances; an absent account holds 0. */
  type Balances = map<Key, nat>

  function Bal(st: Balances, k: Key): nat {
    if k in st then st[k] else 0
  }

  function Move(st: Balances, from: Key, to: Key, amount: nat): Balances
    requires amount <= Bal(st, from)
  {
    var debited := st[from := Bal(st, from) - amount];
    debited[to := Bal(debited, to) + amount]
  }

  /** Whatever the instructions that the policy does not know may do to the balances. */
  type OtherEffect = (Instruction, Balances) -> Option<Balances>

  /** The lamport effect of one instruction on chain. Fees, ATA rent and the token side of a
      swap are not part of it; a failing instruction is None. */
  function Execute(m: Message, ix: Instruction, st: Balances, other: OtherEffect): Option<Balances> {
    match KeyAt(m, ix.program)
    case None => None
    case Some(ComputeBudget) => Some(st)
    case Some(System) =>
      if IsTransfer(ix.data) then
        var from, to, amount := Account(m, ix, 0), Account(m, ix, 1), Le64(ix.data[4..12]);
        if from.None? || to.None? || amount > Bal(st, from.value) then None
        else Some(Move(st, from.value, to.value, amount))
      else other(ix, st)
    case Some(Token) =>
      if ix.data == [17] then Some(st)
      else if ix.data == [9] then
        var account, destination := Account(m, ix, 0), Account(m, ix, 1);
        if account.None? || destination.None? then None
        else Some(Move(st, account.value, destination.value, Bal(st, account.value)))
      else other(ix, st)
    case Some(AtaProgram) => if ix.data == [] || ix.data == [0] || ix.data == [1] then Some(st) else other(ix, st)
    case Some(p) => if IsClmm(p) && |ix.data| >= 8 && ix.data[..8] == CLMM_SWAP then Some(st) else other(ix, st)
  }

  /** A transaction is atomic: any failing instruction fails it. */
  function ExecuteAll(m: Message, ixs: seq<Instruction>, st: Balances, other: OtherEffect): Option<Balances> {
    if ixs == [] then Some(st)
    else
      match ExecuteAll(m, ixs[..|ixs| - 1], st, other)
      case None => None
      case Some(mid) => Execute(m, ixs[|ixs| - 1], mid, other)
  }

  /** From `st` to `st'` at most `out` lamports left the signer, and nothing outside the
      approved accounts changed; tip and operator accounts only gained, at most `out`. */
  ghost predicate Contained(signer: Key, policy: Policy, own: set<Key>, st: Balances, st': Balances, out: nat) {
    && Bal(st, signer) <= Bal(st', signer) + out
    && (forall k :: k != signer && !Approved(policy, own, k) ==> Bal(st', k) == Bal(st, k))
    && (forall k :: k != signer && k !in own ==> Bal(st, k) <= Bal(st', k) <= Bal(st, k) + out)
  }

  lemma ContainedStep(m: Message, signer: Key, policy: Policy, ata: AtaOf, own: set<Key>, ix: Instruction,
      st: Balances, other: OtherEffect)
    requires AtaPassOk(m, signer, ata, ix) && Allowed(m, signer, policy, own, ix) && Execute(m, ix, st, other).Some?
    ensures Contained(signer, policy, own, st, Execute(m, ix, st, other).value, Outflow(m, signer, ix))
  {
    match KeyAt(m, ix.program)
    case Some(System) =>
      TransferContained(signer, policy, own, st, Account(m, ix, 1).value, Le64(ix.data[4..12]));
    case Some(Token) =>
      TokenContained(m, signer, policy, own, ix, st, other);
    case Some(_) =>
      assert Execute(m, ix, st, other) == Some(st) && Outflow(m, signer, ix) == 0;
    case None =>
  }

  lemma TokenContained(m: Message, signer: Key, policy: Policy, own: set<Key>, ix: Instruction, st: Balances,
      other: OtherEffect)
    requires KeyAt(m, ix.program) == Some(Token) && Allowed(m, signer, policy, own, ix)
    requires Execute(m, ix, st, other).Some?
    ensures Contained(signer, policy, own, st, Execute(m, ix, st, other).value, 0)
  {
    assert ix.data == [ix.data[0]];
    CloseContained(signer, policy, own, st, Account(m, ix, 0).value);
  }

  lemma TransferContained(signer: Key, policy: Policy, own: set<Key>, st: Balances, to: Key, amount: nat)
    requires amount <= Bal(st, signer) && (to == signer || Approved(policy, own, to))
    ensures Contained(signer, policy, own, st, Move(st, signer, to, amount), if to == signer then 0 else amount)
  {
  }

  lemma CloseContained(signer: Key, policy: Policy, own: set<Key>, st: Balances, account: Key)
    requires account in own
    ensures Contained(signer, policy, own, st, Move(st, account, signer, Bal(st, account)), 0)
    ensures Contained(signer, policy, own, st, st, 0)
  {
  }

  lemma ContainedTrans(signer: Key, policy: Policy, own: set<Key>, a: Balances, b: Balances, c: Balances, x: nat,
      y: nat)
    requires Contained(signer, policy, own, a, b, x) && Contained(signer, policy, own, b, c, y)
    ensures Contained(signer, policy, own, a, c, x + y)
  {
  }

  lemma {:induction false} ContainedPrefix(m: Message, signer: Key, policy: Policy, ata: AtaOf, own: set<Key>,
      ixs: seq<Instruction>, st: Balances, other: OtherEffect)
    requires forall i :: 0 <= i < |ixs| ==> AtaPassOk(m, signer, ata, ixs[i]) && Allowed(m, signer, policy, own, ixs[i])
    requires ExecuteAll(m, ixs, st, other).Some?
    ensures Contained(signer, policy, own, st, ExecuteAll(m, ixs, st, other).value, TotalOutflow(m, signer, ixs))
  {
    if ixs == [] {
    } else {
      var init, last := ixs[..|ixs| - 1], ixs[|ixs| - 1];
      ContainedPrefix(m, signer, policy, ata, own, init, st, other);
      var mid := ExecuteAll(m, init, st, other).value;
      ContainedStep(m, signer, policy, ata, own, last, mid, other);
      ContainedTrans(signer, policy, own, st, mid, Execute(m, last, mid, other).value,
                     TotalOutflow(m, signer, init), Outflow(m, signer, last));
    }
  }

  /** The point of the policy: whatever other programs could do, executing an accepted message
      takes at most the exact outflow from the signer; nothing changes but the signer, associated
      token accounts of the signer that the message creates, tip accounts and the operator's extra
      destinations, and the last two only gain; below a cap of u64::MAX the outflow is within it. */
  lemma AcceptedIsContained(m: Message, signer: Key, policy: Policy, ata: AtaOf, st: Balances, other: OtherEffect)
    requires Accepts(m, signer, policy, ata) && ExecuteAll(m, m.instructions, st, other).Some?
    ensures var after, out := ExecuteAll(m, m.instructions, st, other).value, TotalOutflow(m, signer, m.instructions);
            && Bal(st, signer) <= Bal(after, signer) + out
            && (forall k :: k == signer || CreatedForSigner(m, signer, ata, k) || IsTip(k) ||
                            k in policy.extraDestinations || Bal(after, k) == Bal(st, k))
            && (forall k :: k == signer || CreatedForSigner(m, signer, ata, k) ||
                            Bal(st, k) <= Bal(after, k) <= Bal(st, k) + out)
            && (policy.maxTransfer < U64_MAX ==> out <= policy.maxTransfer)
  {
    var own := OwnAtas(m, m.instructions);
    ContainedPrefix(m, signer, policy, ata, own, m.instructions, st, other);
    forall k
      ensures k in own ==> CreatedForSigner(m, signer, ata, k)
    {
      OwnAtasAreTheSigners(m, signer, ata, k);
    }
  }

  predicate IsClose(m: Message, ix: Instruction) {
    KeyAt(m, ix.program) == Some(Token) && ix.data == [9]
  }

  /** And the outflow is exact: as long as nothing is closed back to the signer, an accepted message
      takes precisely that much. */
  lemma {:induction false} OutflowIsExact(m: Message, signer: Key, policy: Policy, ata: AtaOf, own: set<Key>,
      ixs: seq<Instruction>, st: Balances, other: OtherEffect)
    requires forall i :: 0 <= i < |ixs| ==>
               AtaPassOk(m, signer, ata, ixs[i]) && Allowed(m, signer, policy, own, ixs[i]) && !IsClose(m, ixs[i])
    requires ExecuteAll(m, ixs, st, other).Some?
    ensures Bal(st, signer) == Bal(ExecuteAll(m, ixs, st, other).value, signer) + TotalOutflow(m, signer, ixs)
  {
    if ixs != [] {
      var init, last := ixs[..|ixs| - 1], ixs[|ixs| - 1];
      OutflowIsExact(m, signer, policy, ata, own, init, st, other);
      ExactStep(m, signer, policy, ata, own, last, ExecuteAll(m, init, st, other).value, other);
    }
  }

  lemma ExactStep(m: Message, signer: Key, policy: Policy, ata: AtaOf, own: set<Key>, ix: Instruction, st: Balances,
      other: OtherEffect)
    requires AtaPassOk(m, signer, ata, ix) && Allowed(m, signer, policy, own, ix) && !IsClose(m, ix)
    requires Execute(m, ix, st, other).Some?
    ensures Bal(st, signer) == Bal(Execute(m, ix, st, other).value, signer) + Outflow(m, signer, ix)
  {
    if KeyAt(m, ix.program) == Some(Token) {
      assert ix.data == [ix.data[0]];
    }
  }

  /** The cap bounds the exact outflow of every accepted message exactly when it is below
      u64::MAX: at u64::MAX the saturating total can no longer exceed it. */
  lemma CapIsExact(signer: Key, policy: Policy, ata: AtaOf)
    ensures (forall m :: Accepts(m, signer, policy, ata) ==>
            TotalOutflow(m, signer, m.instructions) <= policy.maxTransfer)
            <==> policy.maxTransfer < U64_MAX
  {
    if policy.maxTransfer == U64_MAX {
      var m := TwoHugeTips(signer, policy, ata);
    }
  }

  lemma TwoHugeTips(signer: Key, policy: Policy, ata: AtaOf) returns (m: Message)
    requires policy.maxTransfer == U64_MAX
    ensures Accepts(m, signer, policy, ata) && TotalOutflow(m, signer, m.instructions) > policy.maxTransfer
  {
    var tip := if signer == Tip(0) then Tip(1) else Tip(0);
    var data := [2, 0, 0, 0, 255, 255, 255, 255, 255, 255, 255, 255];
    var ix := Instruction(2, [0, 1], data);
    m := Message([signer, tip, System], 1, [ix, ix]);
    HugeTransfer(data);
    assert Account(m, ix, 0) == Some(signer) && Account(m, ix, 1) == Some(tip);
    assert Outflow(m, signer, ix) == U64_MAX;
    assert Allowed(m, signer, policy, OwnAtas(m, m.instructions), ix);
    SumTwice(OutflowOf(m, signer), ix);
  }

  lemma HugeTransfer(data: seq<u8>)
    requires data == [2, 0, 0, 0, 255, 255, 255, 255, 255, 255, 255, 255]
    ensures IsTransfer(data) && Le64(data[4..12]) == U64_MAX
  {
    assert data[4..12] == [255, 255, 255, 255, 255, 255, 255, 255];
  }

  lemma SumTwice(f: Instruction -> nat, x: Instruction)
    ensures SumOf(f, [x, x]) == 2 * f(x)
  {
    assert [x, x] == ([] + [x]) + [x];
    SumSnoc(f, [], x);
    SumSnoc(f, [] + [x], x);
  }
}
