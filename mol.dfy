/**
 * The in-memory record tree of a macromolecular structure
 * (Structure -> Model -> Chain -> Residue -> Atom) and its accessors.
 *
 * Every record is a value owning an ordered sequence of its children. The
 * parent back-pointers of the C++ records carry no behaviour and are left
 * out; a parent is the record whose sequence holds the child.
 */
module Mol {
  import opened Wrappers
  import opened CString

  datatype EntityType = Unknown | Polymer | NonPolymer | Water

  /** A C `signed char`. */
  newtype Int8 = x: int | -128 <= x < 128

  /** An atom; its element, coordinates, occupancy and B-factor are not modelled. */
  datatype Atom = Atom(name: seq<CChar>, altloc: CChar, charge: Int8)

  /** The sentinel for a sequence id that is not set. */
  const UnknownId: int := -1000

  datatype Residue = Residue(
    seqId: int,
    authSeqId: int,
    insCode: CChar,
    name: seq<CChar>,
    atoms: seq<Atom>)

  datatype Chain = Chain(
    name: seq<CChar>,
    authName: seq<CChar>,
    entityType: EntityType,
    residues: seq<Residue>)

  datatype Model = Model(name: seq<CChar>, chains: seq<Chain>)

  datatype UnitCell = UnitCell(a: real, b: real, c: real, alpha: real, beta: real, gamma: real)

  datatype Structure = Structure(
    cell: UnitCell,
    sgHm: seq<CChar>,
    models: seq<Model>,
    info: map<seq<CChar>, seq<CChar>>)

  // ---------------------------------------------------------------------
  // Construction

  /** `Residue(id, rname)`: only the sequence id and the name are given. */
  function NewResidue(id: int, rname: seq<CChar>): (r: Residue)
    ensures r.seqId == id && r.name == rname
    ensures r.authSeqId == UnknownId && r.insCode == Nul && r.atoms == []
  {
    Residue(id, UnknownId, Nul, rname, [])
  }

  /** `Chain(cname)`: a named chain of unknown entity type with no residues. */
  function NewChain(cname: seq<CChar>): (c: Chain)
    ensures c.name == cname && c.authName == []
    ensures c.entityType == Unknown && c.residues == []
  {
    Chain(cname, [], Unknown, [])
  }

  /** `Model(mname)`: a named model with no chains. */
  function NewModel(mname: seq<CChar>): (m: Model)
    ensures m.name == mname && m.chains == []
  {
    Model(mname, [])
  }

  /** A default-initialised Structure: unit cube cell, nothing else set. */
  function NewStructure(): (s: Structure)
    ensures s.cell.a == s.cell.b == s.cell.c == 1.0
    ensures s.cell.alpha == s.cell.beta == s.cell.gamma == 90.0
    ensures s.sgHm == [] && s.models == [] && s.info == map[]
  {
    Structure(UnitCell(1.0, 1.0, 1.0, 90.0, 90.0, 90.0), [], [], map[])
  }

  // ---------------------------------------------------------------------
  // Sequence ids

  /** The author sequence id as an optional value: absent when it holds the sentinel. */
  function AuthSeqId(r: Residue): Option<int> {
    if r.authSeqId == UnknownId then None else Some(r.authSeqId)
  }

  /** `seq_id_for_pdb()`: the author id when it is set, the primary id otherwise. */
  function SeqIdForPdb(r: Residue): (id: int)
    ensures id == AuthSeqId(r).GetOr(r.seqId)
    ensures r.authSeqId != UnknownId ==> id == r.authSeqId
    ensures r.authSeqId == UnknownId ==> id == r.seqId
  {
    if r.authSeqId != UnknownId then r.authSeqId else r.seqId
  }

  /** A freshly constructed residue reports the id it was built with. */
  lemma NewResidueSeqIdForPdb(id: int, rname: seq<CChar>)
    ensures SeqIdForPdb(NewResidue(id, rname)) == id
    ensures AuthSeqId(NewResidue(id, rname)) == None
  {
  }

  // ---------------------------------------------------------------------
  // Metadata

  /**
   * `get_info(tag, def)`: the C string of the value stored under `tag`, or
   * the C string `def` points to (None standing for the null pointer) when
   * the tag is absent.
   */
  function GetInfo(s: Structure, tag: seq<CChar>, def: Option<seq<CChar>>): (r: Option<seq<CChar>>)
    ensures r.Some? ==> IsCString(r.value)
    ensures tag in s.info ==> r.Some? && r.value == AsCString(s.info[tag])
    ensures tag !in s.info ==> r.Some? == def.Some? && (def.Some? ==> r.value == AsCString(def.value))
  {
    if tag in s.info then Some(AsCString(s.info[tag]))
    else if def.Some? then Some(AsCString(def.value))
    else None
  }

  /** With the default null `def`, a non-null answer means the tag is present. */
  lemma GetInfoNullDefault(s: Structure, tag: seq<CChar>)
    ensures GetInfo(s, tag, None).Some? <==> tag in s.info
    ensures tag in s.info && IsCString(s.info[tag]) ==> GetInfo(s, tag, None) == Some(s.info[tag])
  {
  }

  // ---------------------------------------------------------------------
  // Standard residue names

  /**
   * `c0 << 16 | c1 << 8 | c2` on chars promoted to 32-bit `int`. A negative
   * char sign-extends to ones in every bit above its own byte, so the first
   * negative char from the right decides the high bits: the expression is
   * that char's shifted value plus the (non-negative) chars to its right.
   */
  function Pack(c0: CChar, c1: CChar, c2: CChar): (n: int)
    ensures 0 <= c0 && 0 <= c1 && 0 <= c2 ==> 0 <= n < 0x80_0000
    ensures c0 < 0 || c1 < 0 || c2 < 0 ==> n < 0
  {
    if c2 < 0 then c2 as int
    else if c1 < 0 then c1 as int * 0x100 + c2 as int
    else c0 as int * 0x1_0000 + c1 as int * 0x100 + c2 as int
  }

  /** The `SR` macro: the packed code of a three-letter ASCII literal. */
  function Sr(s: string): (n: int)
    requires |s| == 3 && s[0] as int < 128 && s[1] as int < 128 && s[2] as int < 128
    ensures 0 <= n < 0x80_0000
    ensures n == s[0] as int * 0x1_0000 + s[1] as int * 0x100 + s[2] as int
  {
    Pack(Ch(s[0]), Ch(s[1]), Ch(s[2]))
  }

  /** The twenty standard amino acids and the ASX, GLX and UNK placeholders. */
  const AminoAcidNames: seq<string> := [
    "ALA", "ARG", "ASN", "ASP", "ASX", "CYS", "GLN", "GLU",
    "GLX", "GLY", "HIS", "ILE", "LEU", "LYS", "MET", "PHE",
    "PRO", "SER", "THR", "TRP", "TYR", "UNK", "VAL"
  ]

  /** The 24-entry table: `SR` of each name above, in the same order, then a 0 entry. */
  const StandardAa: seq<int> := [
    Sr("ALA"), Sr("ARG"), Sr("ASN"), Sr("ASP"), Sr("ASX"), Sr("CYS"), Sr("GLN"), Sr("GLU"),
    Sr("GLX"), Sr("GLY"), Sr("HIS"), Sr("ILE"), Sr("LEU"), Sr("LYS"), Sr("MET"), Sr("PHE"),
    Sr("PRO"), Sr("SER"), Sr("THR"), Sr("TRP"), Sr("TYR"), Sr("UNK"), Sr("VAL"), 0
  ]

  /** The one-letter nucleotide codes searched with `strchr`. */
  const Nucleotides: seq<CChar> := Ascii("ACGITU")

  /**
   * What `has_standard_pdb_name()` decides, by the length of the name:
   * a packed three-letter code found in the table, a one-letter code that
   * `strchr` finds among the nucleotides, or '+' followed by such a code.
   */
  predicate IsStandardPdbName(name: seq<CChar>)
    ensures IsStandardPdbName(name) ==> 1 <= |name| <= 3
  {
    if |name| == 3 then
      Pack(name[0], name[1], name[2]) in StandardAa
    else if |name| == 1 then
      Strchr(Nucleotides, name[0]).Some?
    else if |name| == 2 then
      name[0] == Ch('+') && Strchr(Nucleotides, name[1]).Some?
    else
      false
  }

  /** `has_standard_pdb_name()`, scanning the table as the source does. */
  method HasStandardPdbName(r: Residue) returns (b: bool)
    ensures b == IsStandardPdbName(r.name)
  {
    var name := r.name;
    if |name| == 3 {
      var n := Pack(name[0], name[1], name[2]);
      for i := 0 to 24
        invariant forall j :: 0 <= j < i ==> StandardAa[j] != n
      {
        if StandardAa[i] == n {
          return true;
        }
      }
    } else if |name| == 1 {
      return Strchr(Nucleotides, name[0]).Some?;
    } else if |name| == 2 {
      return name[0] == Ch('+') && Strchr(Nucleotides, name[1]).Some?;
    }
    return false;
  }

  /** The chars of the standard three-letter names, in table order. */
  function AminoAcidCode(i: nat): (code: seq<CChar>)
    requires i < |AminoAcidNames|
    ensures |code| == 3 && forall j :: 0 <= j < 3 ==> 0 <= code[j]
  {
    Ascii(AminoAcidNames[i])
  }

  /** A triple of non-negative chars packs to a code no other triple shares. */
  lemma PackMatchesAscii(a0: CChar, a1: CChar, a2: CChar, x0: CChar, x1: CChar, x2: CChar)
    requires 0 <= a0 && 0 <= a1 && 0 <= a2
    ensures Pack(x0, x1, x2) == Pack(a0, a1, a2) <==> x0 == a0 && x1 == a1 && x2 == a2
  {
    if Pack(x0, x1, x2) == Pack(a0, a1, a2) && 0 <= x0 && 0 <= x1 && 0 <= x2 {
      // Base-256 digits below 128: the lowest digits differ by a multiple of 256, so by 0.
      var hi := (a1 as int - x1 as int) + 0x100 * (a0 as int - x0 as int);
      assert x2 as int - a2 as int == 0x100 * hi;
      assert hi == 0;
      assert a1 as int - x1 as int == 0x100 * (x0 as int - a0 as int);
    }
  }

  /** The table entry at `i < 23` is the packed code of the i-th standard name. */
  lemma StandardAaEntry(i: nat)
    requires i < |AminoAcidNames|
    ensures |StandardAa| == |AminoAcidNames| + 1 && StandardAa[|AminoAcidNames|] == 0
    ensures StandardAa[i] == Sr(AminoAcidNames[i])
    ensures StandardAa[i] == Pack(AminoAcidCode(i)[0], AminoAcidCode(i)[1], AminoAcidCode(i)[2])
  {
  }

  /**
   * A three-character name is standard exactly when it is one of the 23
   * names of the table, or when it is three NUL chars, which pack to the
   * table's trailing 0.
   */
  lemma {:induction false} StandardThreeLetter(name: seq<CChar>)
    requires |name| == 3
    ensures IsStandardPdbName(name) <==>
      (exists i :: 0 <= i < |AminoAcidNames| && name == AminoAcidCode(i)) || name == [Nul, Nul, Nul]
  {
    if IsStandardPdbName(name) {
      TableCodeIsName(name);
    }
    if exists i :: 0 <= i < |AminoAcidNames| && name == AminoAcidCode(i) {
      var i :| 0 <= i < |AminoAcidNames| && name == AminoAcidCode(i);
      NameIsInTable(name, i);
    }
    if name == [Nul, Nul, Nul] {
      StandardAaEntry(0);
      assert StandardAa[|AminoAcidNames|] == Pack(name[0], name[1], name[2]);
    }
  }

  /** A three-character name whose code is in the table is a standard name or three NULs. */
  lemma TableCodeIsName(name: seq<CChar>)
    requires |name| == 3 && Pack(name[0], name[1], name[2]) in StandardAa
    ensures (exists i :: 0 <= i < |AminoAcidNames| && name == AminoAcidCode(i)) || name == [Nul, Nul, Nul]
  {
    var i :| 0 <= i < |StandardAa| && StandardAa[i] == Pack(name[0], name[1], name[2]);
    if i == |AminoAcidNames| {
      StandardAaEntry(0);
      SamePackedCode(name, [Nul, Nul, Nul]);
    } else {
      StandardAaEntry(i);
      SamePackedCode(name, AminoAcidCode(i));
    }
  }

  /** Two three-char names with the same packed code, one of them ASCII, are the same name. */
  lemma SamePackedCode(name: seq<CChar>, code: seq<CChar>)
    requires |name| == 3 && |code| == 3 && 0 <= code[0] && 0 <= code[1] && 0 <= code[2]
    requires Pack(name[0], name[1], name[2]) == Pack(code[0], code[1], code[2])
    ensures name == code
  {
    PackMatchesAscii(code[0], code[1], code[2], name[0], name[1], name[2]);
    assert name[0] == code[0] && name[1] == code[1] && name[2] == code[2];
  }

  /** The i-th standard name packs to a code of the table. */
  lemma NameIsInTable(name: seq<CChar>, i: nat)
    requires i < |AminoAcidNames| && name == AminoAcidCode(i)
    ensures Pack(name[0], name[1], name[2]) in StandardAa
  {
    StandardAaEntry(i);
    assert StandardAa[i] == Pack(name[0], name[1], name[2]);
  }

  /**
   * One- and two-character names: a nucleotide letter, optionally after
   * '+'; the NUL char passes too, because `strchr` finds the terminator.
   * Every other length is rejected.
   */
  lemma {:induction false} StandardShortNames(name: seq<CChar>)
    ensures |name| == 1 ==>
      (IsStandardPdbName(name) <==> name[0] in Nucleotides || name[0] == Nul)
    ensures |name| == 2 ==>
      (IsStandardPdbName(name) <==> name[0] == Ch('+') && (name[1] in Nucleotides || name[1] == Nul))
    ensures |name| == 0 || |name| >= 4 ==> !IsStandardPdbName(name)
  {
    if |name| == 1 {
      StrchrFound(Nucleotides, name[0]);
    } else if |name| == 2 {
      StrchrFound(Nucleotides, name[1]);
    }
  }

  /** The NUL quirks: names made of NUL chars pass the check. */
  lemma NulNamesAreStandard()
    ensures IsStandardPdbName([Nul])
    ensures IsStandardPdbName([Ch('+'), Nul])
    ensures IsStandardPdbName([Nul, Nul, Nul])
  {
    StandardShortNames([Nul]);
    StandardShortNames([Ch('+'), Nul]);
    StandardThreeLetter([Nul, Nul, Nul]);
  }
}
