/** The Token-2022 mint parser (onchain_risk.rs) and its Python mirror (dex_survey.py), both
    against one grammar. */
module Token2022 {
  import opened Base

  const BASE_MINT: nat := 82
  const BASE_LEN: nat := 165

  /** One type-length-value extension entry. */
  datatype Entry = Entry(ty: u16, value: seq<u8>)

  /** The metadata pointer (18) and the metadata itself (19). */
  predicate AllowedType(ty: int) {
    ty == 18 || ty == 19
  }

  ghost predicate ValidEntries(es: seq<Entry>) {
    forall i :: 0 <= i < |es| ==> AllowedType(es[i].ty) && |es[i].value| < 0x1_0000
  }

  function PrintEntry(e: Entry): seq<u8>
    requires |e.value| < 0x1_0000
  {
    var len: u16 := |e.value|;
    [e.ty % 256, e.ty / 256, len % 256, len / 256] + e.value
  }

  function Print(es: seq<Entry>): seq<u8>
    requires forall i :: 0 <= i < |es| ==> |es[i].value| < 0x1_0000
  {
    if es == [] then [] else PrintEntry(es[0]) + Print(es[1..])
  }

  predicate AllZero(s: seq<u8>) {
    forall i :: 0 <= i < |s| ==> s[i] == 0
  }

  /** `s` is the printing of `es` followed by zero padding of length 0 or at least 4. */
  ghost predicate Encodes(s: seq<u8>, es: seq<Entry>) {
    && ValidEntries(es) && |Print(es)| <= |s| && s[..|Print(es)|] == Print(es)
    && AllZero(s[|Print(es)|..]) && (|s| == |Print(es)| || |s| >= |Print(es)| + 4)
  }

  ghost predicate Decodable(s: seq<u8>) {
    exists es :: Encodes(s, es)
  }

  /** The layouts that are accepted: a bare mint, or a padded mint, the mint account type and
      metadata-only extensions. */
  ghost predicate Accepted(data: seq<u8>) {
    || |data| == BASE_MINT
    || (|data| > BASE_LEN && AllZero(data[BASE_MINT..BASE_LEN]) && data[BASE_LEN] == 1 &&
        Decodable(data[BASE_LEN + 1..]))
  }

  function Le16(lo: u8, hi: u8): u16 {
    lo as int + 256 * (hi as int)
  }

  // ---------------------------------------------------------------- the grammar, entry by entry

  /** What a rest that starts with a non-empty type must look like. */
  lemma EncodesHead(s: seq<u8>, es: seq<Entry>)
    requires Encodes(s, es) && s != [] && !AllZero(s)
    ensures es != [] && |s| >= 4 && AllowedType(Le16(s[0], s[1]))
    ensures var len := Le16(s[2], s[3]);
            4 + len <= |s| && es[0] == Entry(Le16(s[0], s[1]), s[4..4 + len]) && Encodes(s[4 + len..], es[1..])
  {
    var p, q := PrintEntry(es[0]), Print(es[1..]);
    assert Print(es) == p + q;
    SplitPrefix(s, p, q);
    assert forall i :: 0 <= i < |p| ==> s[i] == s[..|p|][i];
    assert s[4..|p|] == s[..|p|][4..] == es[0].value;
  }

  lemma SplitPrefix(s: seq<u8>, p: seq<u8>, q: seq<u8>)
    requires |p + q| <= |s| && s[..|p + q|] == p + q
    ensures s[..|p|] == p && s[|p|..][..|q|] == q && s[|p|..][|q|..] == s[|p + q|..]
  {
    assert s[..|p|] == s[..|p + q|][..|p|];
    assert s[|p|..][..|q|] == s[..|p + q|][|p|..];
  }

  lemma JoinPrefix(s: seq<u8>, p: seq<u8>, q: seq<u8>)
    requires |p + q| <= |s| && s[..|p|] == p && s[|p|..][..|q|] == q
    ensures s[..|p + q|] == p + q && s[|p|..][|q|..] == s[|p + q|..]
  {
  }

  /** An entry never starts with a zero byte. */
  lemma HeadNonZero(s: seq<u8>, es: seq<Entry>)
    requires Encodes(s, es) && es != []
    ensures |s| >= 4 && s[0] != 0
  {
    var p, q := PrintEntry(es[0]), Print(es[1..]);
    assert Print(es) == p + q;
    SplitPrefix(s, p, q);
    assert s[0] == s[..|p|][0];
  }

  lemma EncodesCons(s: seq<u8>, es: seq<Entry>)
    requires |s| >= 4 && AllowedType(Le16(s[0], s[1])) && 4 + Le16(s[2], s[3]) <= |s|
    requires Encodes(s[4 + Le16(s[2], s[3])..], es)
    ensures var e := Entry(Le16(s[0], s[1]), s[4..4 + Le16(s[2], s[3])]);
            Encodes(s, [e] + es)
  {
    var len := Le16(s[2], s[3]);
    var e := Entry(Le16(s[0], s[1]), s[4..4 + len]);
    var p, q := PrintEntry(e), Print(es);
    assert ([e] + es)[1..] == es;
    assert Print([e] + es) == p + q;
    assert s[..|p|] == p;
    JoinPrefix(s, p, q);
  }

  lemma EncodesEmpty(s: seq<u8>)
    requires AllZero(s) && (s == [] || |s| >= 4)
    ensures Encodes(s, [])
  {
  }

  /** A rest of zeros encodes only the empty list, and only at length 0 or at least 4. */
  lemma EncodesZeros(s: seq<u8>, es: seq<Entry>)
    requires Encodes(s, es) && AllZero(s)
    ensures es == [] && (s == [] || |s| >= 4)
  {
    if es != [] {
      HeadNonZero(s, es);
    }
  }

  /** The printing is unique: no bytes encode two extension lists. */
  lemma {:induction false} EncodingUnique(s: seq<u8>, es: seq<Entry>, fs: seq<Entry>)
    requires Encodes(s, es) && Encodes(s, fs)
    ensures es == fs
    decreases |s|
  {
    if AllZero(s) {
      EncodesZeros(s, es);
      EncodesZeros(s, fs);
    } else {
      EncodesHead(s, es);
      EncodesHead(s, fs);
      EncodingUnique(s[4 + Le16(s[2], s[3])..], es[1..], fs[1..]);
    }
  }

  // ---------------------------------------------------------------- the Rust parser

  datatype Layout = WellFormed | Malformed | BadExtension(ty: u16)

  /** `check_token_2022_extensions`. */
  method CheckExtensions(data: seq<u8>) returns (r: Layout)
    ensures r.WellFormed? <==> Accepted(data)
    ensures r.BadExtension? ==> !AllowedType(r.ty) && r.ty != 0
  {
    if |data| == BASE_MINT {
      return WellFormed;
    }
    if |data| <= BASE_LEN {
      return Malformed;
    }
    if !AllZero(data[BASE_MINT..BASE_LEN]) {
      return Malformed;
    }
    if data[BASE_LEN] != 1 {
      return Malformed;
    }
    r := CheckEntries(data);
  }

  /** Its loop over the entries. */
  method CheckEntries(data: seq<u8>) returns (r: Layout)
    requires |data| > BASE_LEN
    ensures r.WellFormed? <==> Decodable(data[BASE_LEN + 1..])
    ensures r.BadExtension? ==> !AllowedType(r.ty) && r.ty != 0
  {
    var i := BASE_LEN + 1;
    ghost var decodable := Decodable(data[BASE_LEN + 1..]);
    while i < |data|
      invariant BASE_LEN + 1 <= i <= |data| && decodable == Decodable(data[i..])
      decreases |data| - i
    {
      var rest := data[i..];
      var next, len := CheckEntry(rest);
      if next.Some? {
        return next.value;
      }
      assert rest[4 + len..] == data[i + (4 + len)..];
      i := i + (4 + len);
    }
    EncodesEmpty(data[i..]);
    return WellFormed;
  }

  /** The loop body: a verdict, or the length of an entry to skip. */
  method CheckEntry(rest: seq<u8>) returns (r: Option<Layout>, len: nat)
    requires rest != []
    ensures r.Some? ==> (r.value.WellFormed? <==> Decodable(rest))
    ensures r.Some? && r.value.BadExtension? ==> !AllowedType(r.value.ty) && r.value.ty != 0
    ensures r.None? ==> 4 + len <= |rest| && (Decodable(rest) <==> Decodable(rest[4 + len..]))
  {
    HeadDecides(rest);
    if |rest| < 4 {
      return Some(Malformed), 0;
    }
    var ty := Le16(rest[0], rest[1]);
    len := Le16(rest[2], rest[3]);
    if ty == 0 {
      return Some(if AllZero(rest) then WellFormed else Malformed), len;
    }
    if !AllowedType(ty) {
      return Some(BadExtension(ty)), len;
    }
    if 4 + len > |rest| {
      return Some(Malformed), len;
    }
    return None, len;
  }

  /** The first four bytes decide: too few of them encode nothing, zeros end the list, and
      otherwise there must be a complete allowed entry with an encoded rest behind it. */
  lemma HeadDecides(s: seq<u8>)
    requires s != []
    ensures |s| < 4 ==> !Decodable(s)
    ensures |s| >= 4 && Le16(s[0], s[1]) == 0 ==> (Decodable(s) <==> AllZero(s))
    ensures |s| >= 4 && Le16(s[0], s[1]) != 0 ==>
              var len := Le16(s[2], s[3]);
              Decodable(s) <==> AllowedType(Le16(s[0], s[1])) && 4 + len <= |s| && Decodable(s[4 + len..])
  {
    if |s| < 4 {
      ShortRest(s);
    } else if AllZero(s) {
      EncodesEmpty(s);
      assert Decodable(s);
    } else {
      RejectHead(s);
      if AllowedType(Le16(s[0], s[1])) && 4 + Le16(s[2], s[3]) <= |s| {
        SameVerdict(s);
      }
    }
  }

  lemma ShortRest(s: seq<u8>)
    requires 0 < |s| < 4
    ensures !Decodable(s)
  {
    forall es | Encodes(s, es)
      ensures false
    {
      if AllZero(s) {
        EncodesZeros(s, es);
      } else {
        EncodesHead(s, es);
      }
    }
  }

  /** A non-zero rest whose head is not an allowed, complete entry encodes nothing. */
  lemma RejectHead(s: seq<u8>)
    requires |s| >= 4 && !AllZero(s)
    ensures !AllowedType(Le16(s[0], s[1])) || 4 + Le16(s[2], s[3]) > |s| ==> !Decodable(s)
  {
    forall es | Encodes(s, es)
      ensures AllowedType(Le16(s[0], s[1])) && 4 + Le16(s[2], s[3]) <= |s|
    {
      EncodesHead(s, es);
    }
  }

  lemma SameVerdict(s: seq<u8>)
    requires |s| >= 4 && !AllZero(s) && AllowedType(Le16(s[0], s[1])) && 4 + Le16(s[2], s[3]) <= |s|
    ensures Decodable(s) <==> Decodable(s[4 + Le16(s[2], s[3])..])
  {
    var rest := s[4 + Le16(s[2], s[3])..];
    if es :| Encodes(s, es) {
      EncodesHead(s, es);
      assert Encodes(rest, es[1..]);
    }
    if es :| Encodes(rest, es) {
      EncodesCons(s, es);
    }
  }

  // ---------------------------------------------------------------- the two classifiers

  datatype Owner = SplToken | Token2022Program | OtherProgram
  datatype TokenPolicy = ClassicOnly | PaperToken2022
  datatype AuthorityRisk = AuthorityRisk(mintAuthority: bool, freezeAuthority: bool)
  datatype MintError = WrongSize | BadLayout | BadExtensionType(ty: u16) | WrongProgram | Uninitialized | BadAuthority

  function Le32(b: seq<u8>): nat
    requires |b| == 4
  {
    b[0] as int + 0x100 * (b[1] as int) + 0x1_0000 * (b[2] as int) + 0x100_0000 * (b[3] as int)
  }

  ghost predicate ProgramAccepted(owner: Owner, data: seq<u8>, policy: TokenPolicy) {
    || (owner == SplToken && |data| == BASE_MINT)
    || (owner == Token2022Program && policy == PaperToken2022 && Accepted(data))
  }

  /** An initialized base mint with readable authority options. */
  ghost predicate BaseReadable(data: seq<u8>) {
    |data| >= BASE_MINT && data[45] == 1 && Le32(data[0..4]) <= 1 && Le32(data[46..50]) <= 1
  }

  /** An optional authority as it is stored: a tag and 32 bytes that mean something only if it is there. */
  datatype StoredKey = StoredKey(present: bool, key: seq<u8>)

  datatype Mint = Mint(mintAuthority: StoredKey, supply: seq<u8>, decimals: u8, freezeAuthority: StoredKey)

  ghost predicate ValidMint(m: Mint) {
    |m.mintAuthority.key| == 32 && |m.supply| == 8 && |m.freezeAuthority.key| == 32
  }

  function PrintAuthority(a: StoredKey): (r: seq<u8>)
    ensures |r| == 4 + |a.key|
  {
    [if a.present then 1 else 0, 0, 0, 0] + a.key
  }

  /** The base layout of an initialized mint. */
  function PrintMint(m: Mint): seq<u8> {
    PrintAuthority(m.mintAuthority) + (m.supply + ([m.decimals, 1] + PrintAuthority(m.freezeAuthority)))
  }

  /** An initialized mint is readable, whatever follows it, and its two tags are its two authorities. */
  lemma PrintedIsReadable(m: Mint, rest: seq<u8>)
    requires ValidMint(m)
    ensures var data := PrintMint(m) + rest;
            && |PrintMint(m)| == BASE_MINT && BaseReadable(data)
            && (Le32(data[0..4]) != 0 <==> m.mintAuthority.present)
            && (Le32(data[46..50]) != 0 <==> m.freezeAuthority.present)
  {
    var data := PrintMint(m) + rest;
    assert data[0..4] == PrintAuthority(m.mintAuthority)[0..4];
    assert data[46..50] == PrintAuthority(m.freezeAuthority)[0..4];
    assert data[45] == ([m.decimals, 1] + PrintAuthority(m.freezeAuthority))[1];
  }

  /** And nothing else is: readable data starts with exactly one initialized mint. */
  lemma ReadableIsPrinted(data: seq<u8>) returns (m: Mint)
    requires BaseReadable(data)
    ensures ValidMint(m) && data[..BASE_MINT] == PrintMint(m)
    ensures m.mintAuthority.present == (Le32(data[0..4]) != 0) && m.freezeAuthority.present == (Le32(data[46..50]) != 0)
  {
    m := Mint(ReadAuthority(data[..36]), data[36..44], data[44], ReadAuthority(data[46..82]));
    assert data[..36][0..4] == data[0..4] && data[46..82][0..4] == data[46..50];
    AuthorityPrints(data[..36]);
    AuthorityPrints(data[46..82]);
    assert data[..BASE_MINT] == data[..36] + (data[36..44] + ([data[44], data[45]] + data[46..82]));
  }

  function ReadAuthority(s: seq<u8>): StoredKey
    requires |s| == 36
  {
    StoredKey(Le32(s[0..4]) != 0, s[4..])
  }

  lemma AuthorityPrints(s: seq<u8>)
    requires |s| == 36 && Le32(s[0..4]) <= 1
    ensures PrintAuthority(ReadAuthority(s)) == s
  {
    assert s == [s[0], s[1], s[2], s[3]] + s[4..];
  }

  /** `classify_mint` (Rust). */
  method ClassifyMint(owner: Owner, data: seq<u8>, policy: TokenPolicy) returns (r: Result<AuthorityRisk, MintError>)
    ensures r.Ok? <==> ProgramAccepted(owner, data, policy) && BaseReadable(data)
    ensures r.Ok? ==> r.value == AuthorityRisk(Le32(data[0..4]) != 0, Le32(data[46..50]) != 0)
  {
    if owner == SplToken {
      if |data| != BASE_MINT {
        return Err(WrongSize);
      }
    } else if owner == Token2022Program && policy == PaperToken2022 {
      var layout := CheckExtensions(data);
      match layout
      case WellFormed =>
      case Malformed => return Err(BadLayout);
      case BadExtension(ty) => return Err(BadExtensionType(ty));
    } else {
      return Err(WrongProgram);
    }
    if data[45] != 1 {
      return Err(Uninitialized);
    }
    var mintTag, freezeTag := Le32(data[0..4]), Le32(data[46..50]);
    if mintTag > 1 || freezeTag > 1 {
      return Err(BadAuthority);
    }
    return Ok(AuthorityRisk(mintTag != 0, freezeTag != 0));
  }

  datatype Verdict = OkClassic | OkToken2022 | Authority | MalformedMint | BadExtensionMint | OtherProgramMint

  /** The TLV walk of the Python mirror: it advances first and compares afterwards. */
  method WalkExtensions(data: seq<u8>) returns (v: Option<Verdict>)
    requires |data| > BASE_LEN
    ensures v == None <==> Decodable(data[BASE_LEN + 1..])
    ensures v.Some? ==> v.value in {MalformedMint, BadExtensionMint}
  {
    var i := BASE_LEN + 1;
    ghost var decodable := Decodable(data[BASE_LEN + 1..]);
    while i < |data|
      invariant BASE_LEN + 1 <= i <= |data| && decodable == Decodable(data[i..])
      decreases |data| - i
    {
      var bad, next := WalkEntry(data, i);
      if bad.Some? || next == i {
        return bad;
      }
      i := next;
    }
    EncodesEmpty(data[i..]);
    return None;
  }

  /** One step of the walk: a verdict, the end of the list (`next == i`), or the next entry. */
  method WalkEntry(data: seq<u8>, i: nat) returns (bad: Option<Verdict>, next: nat)
    requires i < |data|
    ensures bad.Some? ==> bad.value in {MalformedMint, BadExtensionMint} && !Decodable(data[i..])
    ensures bad.None? && next == i ==> Decodable(data[i..])
    ensures bad.None? && next != i ==> i < next <= |data| && Decodable(data[i..]) == Decodable(data[next..])
  {
    ghost var rest := data[i..];
    HeadDecides(rest);
    if |data| - i < 4 {
      return Some(MalformedMint), i;
    }
    var ty, ln: nat := Le16(data[i], data[i + 1]), Le16(data[i + 2], data[i + 3]);
    if ty == 0 {
      if !AllZero(data[i..]) {
        return Some(MalformedMint), i;
      }
      return None, i;
    }
    if !AllowedType(ty) {
      return Some(BadExtensionMint), i;
    }
    next := i + (4 + ln);
    if next > |data| {
      return Some(MalformedMint), next;
    }
    assert rest[4 + ln..] == data[next..];
    return None, next;
  }

  /** `classify_mint` (Python). */
  method ClassifyMintPython(owner: Owner, data: seq<u8>) returns (v: Verdict)
    ensures v in {OkClassic, OkToken2022, Authority} <==>
            ProgramAccepted(owner, data, PaperToken2022) && BaseReadable(data)
    ensures v in {OkClassic, OkToken2022} ==> Le32(data[0..4]) == 0 && Le32(data[46..50]) == 0
    ensures v == Authority ==> Le32(data[0..4]) != 0 || Le32(data[46..50]) != 0
    ensures v == OkClassic ==> owner == SplToken
    ensures v == OkToken2022 ==> owner == Token2022Program
  {
    if owner == SplToken {
      if |data| != BASE_MINT {
        return MalformedMint;
      }
    } else if owner == Token2022Program {
      if |data| != BASE_MINT {
        if |data| <= BASE_LEN || !AllZero(data[BASE_MINT..BASE_LEN]) || data[BASE_LEN] != 1 {
          return MalformedMint;
        }
        var w := WalkExtensions(data);
        if w.Some? {
          return w.value;
        }
      }
    } else {
      return OtherProgramMint;
    }
    if data[45] != 1 {
      return MalformedMint;
    }
    var mintTag, freezeTag := Le32(data[0..4]), Le32(data[46..50]);
    if mintTag > 1 || freezeTag > 1 {
      return MalformedMint;
    }
    if mintTag != 0 || freezeTag != 0 {
      return Authority;
    }
    return if owner == SplToken then OkClassic else OkToken2022;
  }

  /** The mirror agrees with the bot on every account: ok, authority and everything else mean
      clean, risky and error under the paper policy. */
  method MirrorAgrees(owner: Owner, data: seq<u8>) returns (rust: Result<AuthorityRisk, MintError>, python: Verdict)
    ensures python in {OkClassic, OkToken2022} <==> rust == Ok(AuthorityRisk(false, false))
    ensures python == Authority <==> rust.Ok? && rust.value != AuthorityRisk(false, false)
    ensures python in {MalformedMint, BadExtensionMint, OtherProgramMint} <==> rust.Err?
  {
    rust := ClassifyMint(owner, data, PaperToken2022);
    python := ClassifyMintPython(owner, data);
  }
}
