/**
 Windows rights as text (policy/files/acl_windows.go, policy/files/fileperms_ops_windows_acl.go):
 names joined by commas one way, a search for each name the other way. The main result is that the
 search is a test of membership, so that the text acts as a set of bits.
 */
module Rights {
  import opened Text

  datatype Right =
    | GenericRead | GenericWrite | GenericExecute | GenericAll
    | FileReadData | FileWriteData | FileAppendData | FileReadEa | FileWriteEa | FileExecute
    | FileDeleteChild | FileReadAttributes | FileWriteAttributes
    | Delete | ReadControl | WriteDac | WriteOwner | Synchronize

  function Name(right: Right): string
  {
    match right
    case GenericRead => "GENERIC_READ"
    case GenericWrite => "GENERIC_WRITE"
    case GenericExecute => "GENERIC_EXECUTE"
    case GenericAll => "GENERIC_ALL"
    case FileReadData => "FILE_READ_DATA"
    case FileWriteData => "FILE_WRITE_DATA"
    case FileAppendData => "FILE_APPEND_DATA"
    case FileReadEa => "FILE_READ_EA"
    case FileWriteEa => "FILE_WRITE_EA"
    case FileExecute => "FILE_EXECUTE"
    case FileDeleteChild => "FILE_DELETE_CHILD"
    case FileReadAttributes => "FILE_READ_ATTRIBUTES"
    case FileWriteAttributes => "FILE_WRITE_ATTRIBUTES"
    case Delete => "DELETE"
    case ReadControl => "READ_CONTROL"
    case WriteDac => "WRITE_DAC"
    case WriteOwner => "WRITE_OWNER"
    case Synchronize => "SYNCHRONIZE"
  }

  function Bit(right: Right): bv32
  {
    match right
    case GenericRead => 0x8000_0000
    case GenericWrite => 0x4000_0000
    case GenericExecute => 0x2000_0000
    case GenericAll => 0x1000_0000
    case FileReadData => 0x0000_0001
    case FileWriteData => 0x0000_0002
    case FileAppendData => 0x0000_0004
    case FileReadEa => 0x0000_0008
    case FileWriteEa => 0x0000_0010
    case FileExecute => 0x0000_0020
    case FileDeleteChild => 0x0000_0040
    case FileReadAttributes => 0x0000_0080
    case FileWriteAttributes => 0x0000_0100
    case Delete => 0x0001_0000
    case ReadControl => 0x0002_0000
    case WriteDac => 0x0004_0000
    case WriteOwner => 0x0008_0000
    case Synchronize => 0x0010_0000
  }

  /** The rights that rightsToMask searches for, in its order. */
  const SEARCHED: seq<Right> := [
    GenericAll, GenericRead, GenericWrite, FileReadData, FileWriteData, FileAppendData,
    FileExecute, ReadControl, WriteDac, WriteOwner]

  const SUPPORTED: bv32 := 0xD00E_0027

  /** All rights, in the order in which maskToRights tests them. */
  const ALL: seq<Right> := [
    GenericRead, GenericWrite, GenericExecute, GenericAll,
    FileReadData, FileWriteData, FileAppendData, FileReadEa, FileWriteEa, FileExecute,
    FileDeleteChild, FileReadAttributes, FileWriteAttributes,
    Delete, ReadControl, WriteDac, WriteOwner, Synchronize]

  predicate IsSearched(right: Right)
  {
    || right.GenericAll? || right.GenericRead? || right.GenericWrite? || right.FileReadData? || right.FileWriteData?
    || right.FileAppendData? || right.FileExecute? || right.ReadControl? || right.WriteDac? || right.WriteOwner?
  }

  function Names(rights: seq<Right>): seq<string>
  {
    if rights == [] then [] else [Name(rights[0])] + Names(rights[1..])
  }

  function Or(a: bv32, b: bv32): bv32 { a | b }

  function And(a: bv32, b: bv32): bv32 { a & b }

  /** The bit of a right as far as it is supported. */
  function KeptBit(right: Right): bv32 { And(Bit(right), SUPPORTED) }

  /** The union of the supported bits. */
  function UnionOf(rights: seq<Right>): bv32
  {
    if rights == [] then 0 else Or(UnionOf(rights[..|rights| - 1]), KeptBit(rights[|rights| - 1]))
  }

  function IfNamed(text: string): Right -> seq<Right>
  {
    (right: Right) => if Contains(text, Name(right)) then [right] else []
  }

  /** The searched rights whose names a text contains. */
  function Found(text: string): seq<Right> { Flat(IfNamed(text), SEARCHED) }

  function IfSet(mask: bv32): Right -> seq<Right>
  {
    (right: Right) => if And(mask, Bit(right)) != 0 then [right] else []
  }

  /** The bits of a mask as rights: one test after the other, each appending its name. */
  function Parts(mask: bv32): seq<Right> { Flat(IfSet(mask), ALL) }

  function HexDigits(n: nat): string
  {
    var digit := ["0123456789abcdef"[n % 16]];
    if n < 16 then digit else HexDigits(n / 16) + digit
  }

  function HexText(mask: bv32): string { "0x" + HexDigits(mask as nat) }

  /** The names of the bits, or the number where no bit has a name. */
  function RightsText(mask: bv32): string
  {
    if Parts(mask) == [] then HexText(mask) else Join(Names(Parts(mask)), ",")
  }

  // ---------------------------------------------------------------- the code

  /** maskToRights. Reading the text gives the supported bits of the mask back. */
  method MaskToRights(mask: bv32) returns (text: string)
    ensures text == RightsText(mask)
    ensures UnionOf(Found(text)) == And(mask, SUPPORTED)
  {
    hide Found, And, Names, Join, UnionOf, Parts, PartsAmong, HexText;
    var parts := GenericParts(mask);
    parts := FileParts(mask, parts);
    parts := StandardParts(mask, parts);
    AllParts(mask);
    NamesLength(Parts(mask));
    PartsAreBits(mask);
    if |parts| == 0 {
      EmptyUnion();
      text := HexText(mask);
      HexNamesNothing(mask);
    } else {
      text := Join(parts, ",");
      RightsActAsBits(Parts(mask));
    }
  }

  /** The tests of maskToRights for generic rights. */
  method GenericParts(mask: bv32) returns (parts: seq<string>)
    ensures parts == Names(PartsAmong(mask, 4))
  {
    TestedEntries();
    hide Bit, And, ALL, IsTested, PartsAmong, Names, Name;
    parts := [];
    NoPartsYet(mask);
    if And(mask, 0x8000_0000) != 0 { parts := parts + [Name(GenericRead)]; }
    PartStep(mask, 0, GenericRead, 0x8000_0000, parts);
    if And(mask, 0x4000_0000) != 0 { parts := parts + [Name(GenericWrite)]; }
    PartStep(mask, 1, GenericWrite, 0x4000_0000, parts);
    if And(mask, 0x2000_0000) != 0 { parts := parts + [Name(GenericExecute)]; }
    PartStep(mask, 2, GenericExecute, 0x2000_0000, parts);
    if And(mask, 0x1000_0000) != 0 { parts := parts + [Name(GenericAll)]; }
    PartStep(mask, 3, GenericAll, 0x1000_0000, parts);
  }

  /** Its tests for rights of files. */
  method FileParts(mask: bv32, before: seq<string>) returns (parts: seq<string>)
    requires before == Names(PartsAmong(mask, 4))
    ensures parts == Names(PartsAmong(mask, 13))
  {
    TestedEntries();
    hide Bit, And, ALL, IsTested, PartsAmong, Names, Name;
    parts := before;
    if And(mask, 0x0000_0001) != 0 { parts := parts + [Name(FileReadData)]; }
    PartStep(mask, 4, FileReadData, 0x0000_0001, parts);
    if And(mask, 0x0000_0002) != 0 { parts := parts + [Name(FileWriteData)]; }
    PartStep(mask, 5, FileWriteData, 0x0000_0002, parts);
    if And(mask, 0x0000_0004) != 0 { parts := parts + [Name(FileAppendData)]; }
    PartStep(mask, 6, FileAppendData, 0x0000_0004, parts);
    if And(mask, 0x0000_0008) != 0 { parts := parts + [Name(FileReadEa)]; }
    PartStep(mask, 7, FileReadEa, 0x0000_0008, parts);
    if And(mask, 0x0000_0010) != 0 { parts := parts + [Name(FileWriteEa)]; }
    PartStep(mask, 8, FileWriteEa, 0x0000_0010, parts);
    if And(mask, 0x0000_0020) != 0 { parts := parts + [Name(FileExecute)]; }
    PartStep(mask, 9, FileExecute, 0x0000_0020, parts);
    if And(mask, 0x0000_0040) != 0 { parts := parts + [Name(FileDeleteChild)]; }
    PartStep(mask, 10, FileDeleteChild, 0x0000_0040, parts);
    if And(mask, 0x0000_0080) != 0 { parts := parts + [Name(FileReadAttributes)]; }
    PartStep(mask, 11, FileReadAttributes, 0x0000_0080, parts);
    if And(mask, 0x0000_0100) != 0 { parts := parts + [Name(FileWriteAttributes)]; }
    PartStep(mask, 12, FileWriteAttributes, 0x0000_0100, parts);
  }

  /** Its tests for standard rights. */
  method StandardParts(mask: bv32, before: seq<string>) returns (parts: seq<string>)
    requires before == Names(PartsAmong(mask, 13))
    ensures parts == Names(PartsAmong(mask, 18))
  {
    TestedEntries();
    hide Bit, And, ALL, IsTested, PartsAmong, Names, Name;
    parts := before;
    if And(mask, 0x0001_0000) != 0 { parts := parts + [Name(Delete)]; }
    PartStep(mask, 13, Delete, 0x0001_0000, parts);
    if And(mask, 0x0002_0000) != 0 { parts := parts + [Name(ReadControl)]; }
    PartStep(mask, 14, ReadControl, 0x0002_0000, parts);
    if And(mask, 0x0004_0000) != 0 { parts := parts + [Name(WriteDac)]; }
    PartStep(mask, 15, WriteDac, 0x0004_0000, parts);
    if And(mask, 0x0008_0000) != 0 { parts := parts + [Name(WriteOwner)]; }
    PartStep(mask, 16, WriteOwner, 0x0008_0000, parts);
    if And(mask, 0x0010_0000) != 0 { parts := parts + [Name(Synchronize)]; }
    PartStep(mask, 17, Synchronize, 0x0010_0000, parts);
  }

  /** Test `i` of the mask: the right that is named and its bit. */
  predicate IsTested(i: nat, right: Right, bit: bv32)
  {
    i < |ALL| == 18 && ALL[i] == right && Bit(right) == bit
  }

  lemma TestedEntries()
    ensures IsTested(0, GenericRead, 0x8000_0000)
    ensures IsTested(1, GenericWrite, 0x4000_0000)
    ensures IsTested(2, GenericExecute, 0x2000_0000)
    ensures IsTested(3, GenericAll, 0x1000_0000)
    ensures IsTested(4, FileReadData, 0x0000_0001)
    ensures IsTested(5, FileWriteData, 0x0000_0002)
    ensures IsTested(6, FileAppendData, 0x0000_0004)
    ensures IsTested(7, FileReadEa, 0x0000_0008)
    ensures IsTested(8, FileWriteEa, 0x0000_0010)
    ensures IsTested(9, FileExecute, 0x0000_0020)
    ensures IsTested(10, FileDeleteChild, 0x0000_0040)
    ensures IsTested(11, FileReadAttributes, 0x0000_0080)
    ensures IsTested(12, FileWriteAttributes, 0x0000_0100)
    ensures IsTested(13, Delete, 0x0001_0000)
    ensures IsTested(14, ReadControl, 0x0002_0000)
    ensures IsTested(15, WriteDac, 0x0004_0000)
    ensures IsTested(16, WriteOwner, 0x0008_0000)
    ensures IsTested(17, Synchronize, 0x0010_0000)
  {
  }

  function PartsAmong(mask: bv32, i: nat): seq<Right>
    requires i <= 18
  {
    Flat(IfSet(mask), ALL[..i])
  }

  lemma NoPartsYet(mask: bv32)
    ensures Names(PartsAmong(mask, 0)) == []
  {
    assert ALL[..0] == [];
    FlatNone(IfSet(mask));
  }

  lemma AllParts(mask: bv32)
    ensures PartsAmong(mask, 18) == Parts(mask)
  {
    assert ALL[..18] == ALL;
  }

  /** One test of the mask: `parts` are the names that it leaves. */
  lemma PartStep(mask: bv32, i: nat, right: Right, bit: bv32, parts: seq<string>)
    requires i < 18 && IsTested(i, right, bit)
    requires var before := Names(PartsAmong(mask, i));
             parts == if And(mask, bit) != 0 then before + [Name(right)] else before
    ensures parts == Names(PartsAmong(mask, i + 1))
  {
    hide Name, Names, Flat, Bit, ALL, And;
    FlatStep(IfSet(mask), ALL, i);
    if And(mask, bit) != 0 {
      assert PartsAmong(mask, i + 1) == PartsAmong(mask, i) + [right];
      NamesSnoc(PartsAmong(mask, i), right);
    } else {
      assert PartsAmong(mask, i + 1) == PartsAmong(mask, i);
    }
  }

  /** rightsToMask. */
  method RightsToMask(text: string) returns (mask: bv32)
    ensures mask == UnionOf(Found(text))
  {
    SearchedEntries();
    hide Contains, Name, UnionOf, Flat, IfNamed, IsEntry, SEARCHED, Bit, Or, FoundAmong, Found;
    mask := 0;
    FoundNothing(text);
    if Contains(text, Name(GenericAll)) { mask := Or(mask, 0x1000_0000); }
    FoundStep(text, 0, GenericAll, 0x1000_0000, mask);
    if Contains(text, Name(GenericRead)) { mask := Or(mask, 0x8000_0000); }
    FoundStep(text, 1, GenericRead, 0x8000_0000, mask);
    if Contains(text, Name(GenericWrite)) { mask := Or(mask, 0x4000_0000); }
    FoundStep(text, 2, GenericWrite, 0x4000_0000, mask);
    if Contains(text, Name(FileReadData)) { mask := Or(mask, 0x0000_0001); }
    FoundStep(text, 3, FileReadData, 0x0000_0001, mask);
    if Contains(text, Name(FileWriteData)) { mask := Or(mask, 0x0000_0002); }
    FoundStep(text, 4, FileWriteData, 0x0000_0002, mask);
    if Contains(text, Name(FileAppendData)) { mask := Or(mask, 0x0000_0004); }
    FoundStep(text, 5, FileAppendData, 0x0000_0004, mask);
    if Contains(text, Name(FileExecute)) { mask := Or(mask, 0x0000_0020); }
    FoundStep(text, 6, FileExecute, 0x0000_0020, mask);
    if Contains(text, Name(ReadControl)) { mask := Or(mask, 0x0002_0000); }
    FoundStep(text, 7, ReadControl, 0x0002_0000, mask);
    if Contains(text, Name(WriteDac)) { mask := Or(mask, 0x0004_0000); }
    FoundStep(text, 8, WriteDac, 0x0004_0000, mask);
    if Contains(text, Name(WriteOwner)) { mask := Or(mask, 0x0008_0000); }
    FoundStep(text, 9, WriteOwner, 0x0008_0000, mask);
    FoundAll(text);
  }

  /** Entry `i` of the search: the right that is looked for and the bit that it sets. */
  predicate IsEntry(i: nat, right: Right, bit: bv32)
  {
    i < |SEARCHED| == 10 && SEARCHED[i] == right && KeptBit(right) == bit
  }

  lemma SearchedEntries()
    ensures IsEntry(0, GenericAll, 0x1000_0000)
    ensures IsEntry(1, GenericRead, 0x8000_0000)
    ensures IsEntry(2, GenericWrite, 0x4000_0000)
    ensures IsEntry(3, FileReadData, 0x0000_0001)
    ensures IsEntry(4, FileWriteData, 0x0000_0002)
    ensures IsEntry(5, FileAppendData, 0x0000_0004)
    ensures IsEntry(6, FileExecute, 0x0000_0020)
    ensures IsEntry(7, ReadControl, 0x0002_0000)
    ensures IsEntry(8, WriteDac, 0x0004_0000)
    ensures IsEntry(9, WriteOwner, 0x0008_0000)
  {
    SearchedOrder();
    SearchedBits();
    hide KeptBit, SEARCHED;
  }

  lemma SearchedOrder()
    ensures |SEARCHED| == 10
    ensures SEARCHED[0] == GenericAll
    ensures SEARCHED[1] == GenericRead
    ensures SEARCHED[2] == GenericWrite
    ensures SEARCHED[3] == FileReadData
    ensures SEARCHED[4] == FileWriteData
    ensures SEARCHED[5] == FileAppendData
    ensures SEARCHED[6] == FileExecute
    ensures SEARCHED[7] == ReadControl
    ensures SEARCHED[8] == WriteDac
    ensures SEARCHED[9] == WriteOwner
  {
  }

  lemma SearchedBits()
    ensures KeptBit(GenericAll) == 0x1000_0000
    ensures KeptBit(GenericRead) == 0x8000_0000
    ensures KeptBit(GenericWrite) == 0x4000_0000
    ensures KeptBit(FileReadData) == 0x0000_0001
    ensures KeptBit(FileWriteData) == 0x0000_0002
    ensures KeptBit(FileAppendData) == 0x0000_0004
    ensures KeptBit(FileExecute) == 0x0000_0020
    ensures KeptBit(ReadControl) == 0x0002_0000
    ensures KeptBit(WriteDac) == 0x0004_0000
    ensures KeptBit(WriteOwner) == 0x0008_0000
  {
  }

  function FoundAmong(text: string, i: nat): seq<Right>
    requires i <= 10
  {
    Flat(IfNamed(text), SEARCHED[..i])
  }

  lemma FoundNothing(text: string)
    ensures UnionOf(FoundAmong(text, 0)) == 0
  {
    assert SEARCHED[..0] == [];
    FlatNone(IfNamed(text));
  }

  lemma FoundAll(text: string)
    ensures FoundAmong(text, 10) == Found(text)
  {
    assert SEARCHED[..10] == SEARCHED;
  }

  /** One test of the search: `mask` is what it leaves. */
  lemma FoundStep(text: string, i: nat, right: Right, bit: bv32, mask: bv32)
    requires i < 10 && IsEntry(i, right, bit)
    requires var before := UnionOf(FoundAmong(text, i));
             mask == if Contains(text, Name(right)) then Or(before, bit) else before
    ensures mask == UnionOf(FoundAmong(text, i + 1))
  {
    hide Contains, Name, UnionOf, Flat, KeptBit, SEARCHED, Or;
    FlatStep(IfNamed(text), SEARCHED, i);
    if Contains(text, Name(right)) {
      assert FoundAmong(text, i + 1) == FoundAmong(text, i) + [right];
      UnionSnoc(FoundAmong(text, i), right);
    } else {
      assert FoundAmong(text, i + 1) == FoundAmong(text, i);
    }
  }

  // ---------------------------------------------------------------- unions

  lemma UnionSnoc(rights: seq<Right>, right: Right)
    ensures UnionOf(rights + [right]) == Or(UnionOf(rights), KeptBit(right))
  {
    hide KeptBit, Or;
    assert (rights + [right])[..|rights|] == rights;
  }

  /** All bits of `a` are in `b`. */
  predicate IsWithin(a: bv32, b: bv32) { Or(a, b) == b }

  lemma WithinBoth(a: bv32, b: bv32, c: bv32)
    requires IsWithin(a, c) && IsWithin(b, c)
    ensures IsWithin(Or(a, b), c)
  {
  }

  lemma WithinMore(a: bv32, b: bv32, c: bv32)
    requires IsWithin(a, b)
    ensures IsWithin(a, Or(b, c))
  {
  }

  lemma WithinOr(a: bv32, b: bv32)
    ensures IsWithin(b, Or(a, b))
  {
  }

  lemma WithinEachOther(a: bv32, b: bv32)
    requires IsWithin(a, b) && IsWithin(b, a)
    ensures a == b
  {
  }

  lemma ZeroIsWithin(b: bv32)
    ensures IsWithin(0, b)
  {
  }

  lemma {:induction false} MemberIsWithin(rights: seq<Right>, right: Right)
    requires right in rights
    ensures IsWithin(KeptBit(right), UnionOf(rights))
  {
    hide KeptBit, Or, IsWithin, UnionOf;
    var n := |rights| - 1;
    var before, last := UnionOf(rights[..n]), KeptBit(rights[n]);
    UnionSnoc(rights[..n], rights[n]);
    assert rights[..n] + [rights[n]] == rights;
    if right == rights[n] {
      WithinOr(before, last);
    } else {
      MemberIsWithin(rights[..n], right);
      WithinMore(KeptBit(right), before, last);
    }
  }

  lemma UnsearchedHasNoBit(right: Right)
    requires !IsSearched(right)
    ensures KeptBit(right) == 0
  {
  }

  lemma {:induction false} UnionIsWithin(a: seq<Right>, b: seq<Right>)
    requires forall right <- a :: IsSearched(right) ==> right in b
    ensures IsWithin(UnionOf(a), UnionOf(b))
  {
    hide KeptBit, Or, IsWithin, IsSearched;
    if a == [] {
      ZeroIsWithin(UnionOf(b));
    } else {
      var n := |a| - 1;
      UnionIsWithin(a[..n], b);
      var last := KeptBit(a[n]);
      if IsSearched(a[n]) {
        assert a[n] in a;
        MemberIsWithin(b, a[n]);
      } else {
        UnsearchedHasNoBit(a[n]);
        ZeroIsWithin(UnionOf(b));
      }
      WithinBoth(UnionOf(a[..n]), last, UnionOf(b));
    }
  }

  /** Order and repeats do not matter to a union. */
  lemma SameRightsSameUnion(a: seq<Right>, b: seq<Right>)
    requires forall right :: IsSearched(right) ==> (right in a <==> right in b)
    ensures UnionOf(a) == UnionOf(b)
  {
    hide KeptBit, Or, IsWithin, IsSearched;
    UnionIsWithin(a, b);
    UnionIsWithin(b, a);
    WithinEachOther(UnionOf(a), UnionOf(b));
  }

  // ---------------------------------------------------------------- names do not hide in one another

  /** Characters in a row that no other name has, and where they stand in the name of a searched right. */
  function Mark(right: Right): (nat, string)
  {
    match right
    case GenericRead => (6, "C_R")
    case GenericWrite => (6, "C_W")
    case GenericAll => (9, "LL")
    case FileReadData => (7, "AD_D")
    case FileWriteData => (9, "E_DAT")
    case FileAppendData => (6, "PP")
    case FileExecute => (3, "E_EX")
    case ReadControl => (5, "CO")
    case WriteDac => (7, "AC")
    case WriteOwner => (6, "OW")
    case _ => (0, "")
  }

  lemma MarkIsThere(right: Right)
    ensures var (offset, mark) := Mark(right);
            offset + |mark| <= |Name(right)| && forall j :: 0 <= j < |mark| ==> Name(right)[offset + j] == mark[j]
  {
  }

  lemma CharAt(s: string, t: string, i: nat, j: nat)
    requires OccursAt(s, t, i) && j < |t|
    ensures i + j < |s| && s[i + j] == t[j]
  {
    assert s[i..i + |t|][j] == s[i + j];
  }

  /** A text that holds the name of a right holds its mark, with the rest of the name on either side. */
  lemma MarkOccurs(s: string, right: Right, i: nat)
    requires OccursAt(s, Name(right), i)
    ensures var (offset, mark) := Mark(right);
            i + |Name(right)| <= |s| && offset + |mark| <= |Name(right)| &&
            forall j :: 0 <= j < |mark| ==> s[i + offset + j] == mark[j]
  {
    MarkIsThere(right);
    hide Name, Mark;
    var (offset, mark) := Mark(right);
    forall j | 0 <= j < |mark| ensures s[i + offset + j] == mark[j] {
      CharAt(s, Name(right), i, offset + j);
    }
  }

  lemma OnlyGenericRead(other: Right, i: nat)
    requires i + 12 <= |Name(other)|
    requires Name(other)[i + 6] == 'C' && Name(other)[i + 7] == '_' && Name(other)[i + 8] == 'R'
    ensures other == GenericRead
  {
  }

  lemma OnlyGenericWrite(other: Right, i: nat)
    requires i + 13 <= |Name(other)|
    requires Name(other)[i + 6] == 'C' && Name(other)[i + 7] == '_' && Name(other)[i + 8] == 'W'
    ensures other == GenericWrite
  {
  }

  lemma OnlyGenericAll(other: Right, i: nat)
    requires i + 11 <= |Name(other)|
    requires Name(other)[i + 9] == 'L' && Name(other)[i + 10] == 'L'
    ensures other == GenericAll
  {
  }

  lemma OnlyFileReadData(other: Right, i: nat)
    requires i + 14 <= |Name(other)|
    requires Name(other)[i + 7] == 'A' && Name(other)[i + 8] == 'D' && Name(other)[i + 9] == '_' &&
             Name(other)[i + 10] == 'D'
    ensures other == FileReadData
  {
  }

  lemma OnlyFileWriteData(other: Right, i: nat)
    requires i + 15 <= |Name(other)|
    requires Name(other)[i + 9] == 'E' && Name(other)[i + 10] == '_' && Name(other)[i + 11] == 'D' &&
             Name(other)[i + 12] == 'A' && Name(other)[i + 13] == 'T'
    ensures other == FileWriteData
  {
  }

  lemma OnlyFileAppendData(other: Right, i: nat)
    requires i + 16 <= |Name(other)|
    requires Name(other)[i + 6] == 'P' && Name(other)[i + 7] == 'P'
    ensures other == FileAppendData
  {
  }

  lemma OnlyFileExecute(other: Right, i: nat)
    requires i + 12 <= |Name(other)|
    requires Name(other)[i + 3] == 'E' && Name(other)[i + 4] == '_' && Name(other)[i + 5] == 'E' &&
             Name(other)[i + 6] == 'X'
    ensures other == FileExecute
  {
  }

  lemma OnlyReadControl(other: Right, i: nat)
    requires i + 12 <= |Name(other)|
    requires Name(other)[i + 5] == 'C' && Name(other)[i + 6] == 'O'
    ensures other == ReadControl
  {
  }

  lemma OnlyWriteDac(other: Right, i: nat)
    requires i + 9 <= |Name(other)|
    requires Name(other)[i + 7] == 'A' && Name(other)[i + 8] == 'C'
    ensures other == WriteDac
  {
  }

  lemma OnlyWriteOwner(other: Right, i: nat)
    requires i + 11 <= |Name(other)|
    requires Name(other)[i + 6] == 'O' && Name(other)[i + 7] == 'W'
    ensures other == WriteOwner
  {
  }

  /** No searched name hides in another name. */
  lemma NameIsAlone(right: Right, other: Right, i: nat)
    requires IsSearched(right) && OccursAt(Name(other), Name(right), i)
    ensures other == right
  {
    hide Name, OccursAt;
    if IsFileRight(right) {
      FileNameIsAlone(right, other, i);
    } else {
      OtherNameIsAlone(right, other, i);
    }
  }

  predicate IsFileRight(right: Right)
  {
    right.FileReadData? || right.FileWriteData? || right.FileAppendData? || right.FileExecute?
  }

  lemma FileNameIsAlone(right: Right, other: Right, i: nat)
    requires IsFileRight(right)
    requires OccursAt(Name(other), Name(right), i)
    ensures other == right
  {
    MarkOccurs(Name(other), right, i);
    SearchedLengths();
    hide Name, OccursAt;
    var s, mark := Name(other), Mark(right).1;
    match right
    case FileReadData =>
      assert s[i + 7 + 0] == mark[0] && s[i + 7 + 1] == mark[1] && s[i + 7 + 2] == mark[2] && s[i + 7 + 3] == mark[3];
      OnlyFileReadData(other, i);
    case FileWriteData =>
      assert s[i + 9 + 0] == mark[0] && s[i + 9 + 1] == mark[1] && s[i + 9 + 2] == mark[2] &&
          s[i + 9 + 3] == mark[3] && s[i + 9 + 4] == mark[4];
      OnlyFileWriteData(other, i);
    case FileAppendData =>
      assert s[i + 6 + 0] == mark[0] && s[i + 6 + 1] == mark[1];
      OnlyFileAppendData(other, i);
    case FileExecute =>
      assert s[i + 3 + 0] == mark[0] && s[i + 3 + 1] == mark[1] && s[i + 3 + 2] == mark[2] && s[i + 3 + 3] == mark[3];
      OnlyFileExecute(other, i);
  }

  lemma OtherNameIsAlone(right: Right, other: Right, i: nat)
    requires IsSearched(right) && !IsFileRight(right)
    requires OccursAt(Name(other), Name(right), i)
    ensures other == right
  {
    MarkOccurs(Name(other), right, i);
    SearchedLengths();
    hide Name, OccursAt;
    var s, mark := Name(other), Mark(right).1;
    match right
    case GenericRead =>
      assert s[i + 6 + 0] == mark[0] && s[i + 6 + 1] == mark[1] && s[i + 6 + 2] == mark[2];
      OnlyGenericRead(other, i);
    case GenericWrite =>
      assert s[i + 6 + 0] == mark[0] && s[i + 6 + 1] == mark[1] && s[i + 6 + 2] == mark[2];
      OnlyGenericWrite(other, i);
    case GenericAll =>
      assert s[i + 9 + 0] == mark[0] && s[i + 9 + 1] == mark[1];
      OnlyGenericAll(other, i);
    case ReadControl =>
      assert s[i + 5 + 0] == mark[0] && s[i + 5 + 1] == mark[1];
      OnlyReadControl(other, i);
    case WriteDac =>
      assert s[i + 7 + 0] == mark[0] && s[i + 7 + 1] == mark[1];
      OnlyWriteDac(other, i);
    case WriteOwner =>
      assert s[i + 6 + 0] == mark[0] && s[i + 6 + 1] == mark[1];
      OnlyWriteOwner(other, i);
  }

  lemma SearchedLengths()
    ensures |Name(GenericRead)| == 12
    ensures |Name(GenericWrite)| == 13
    ensures |Name(GenericAll)| == 11
    ensures |Name(FileReadData)| == 14
    ensures |Name(FileWriteData)| == 15
    ensures |Name(FileAppendData)| == 16
    ensures |Name(FileExecute)| == 12
    ensures |Name(ReadControl)| == 12
    ensures |Name(WriteDac)| == 9
    ensures |Name(WriteOwner)| == 11
  {
  }

  // ---------------------------------------------------------------- a joined text as a set

  lemma {:induction false} InfixOfJoin(parts: seq<string>, t: string, i: nat)
    requires t != "" && ',' !in t && OccursAt(Join(parts, ","), t, i)
    ensures exists k :: 0 <= k < |parts| && Contains(parts[k], t)
    decreases |parts|
  {
    var s := Join(parts, ",");
    if |parts| == 1 {
      ContainsAt(parts[0], t, i);
    } else {
      var p, rest := parts[0], Join(parts[1..], ",");
      assert s == p + "," + rest && s[|p|] == ',';
      assert !(i <= |p| < i + |t|) by {
        if i <= |p| < i + |t| {
          CharAt(s, t, i, |p| - i);
        }
      }
      if i + |t| <= |p| {
        assert s[i..i + |t|] == p[i..i + |t|];
        ContainsAt(p, t, i);
      } else {
        var j := i - |p| - 1;
        assert s[i..i + |t|] == rest[j..j + |t|];
        InfixOfJoin(parts[1..], t, j);
        var k :| 0 <= k < |parts[1..]| && Contains(parts[1..][k], t);
        assert parts[k + 1] == parts[1..][k];
      }
    }
  }

  lemma {:induction false} JoinContains(parts: seq<string>, k: nat)
    requires k < |parts|
    ensures Contains(Join(parts, ","), parts[k])
  {
    var s := Join(parts, ",");
    if |parts| == 1 {
      ContainsAt(s, s, 0);
    } else {
      var p, rest := parts[0], Join(parts[1..], ",");
      assert s == p + "," + rest;
      if k == 0 {
        assert s[0..|p|] == p;
        ContainsAt(s, p, 0);
      } else {
        JoinContains(parts[1..], k - 1);
        assert s[|p| + 1..|p| + 1 + |rest|] == rest;
        ContainsAt(s, rest, |p| + 1);
        ContainsTransitive(s, rest, parts[k]);
      }
    }
  }

  lemma {:induction false} NamesAt(rights: seq<Right>, k: nat)
    requires k < |rights|
    ensures |Names(rights)| == |rights| && Names(rights)[k] == Name(rights[k])
  {
    hide Name;
    if |rights| > 1 {
      NamesAt(rights[1..], if k == 0 then 0 else k - 1);
    }
  }

  lemma {:induction false} NamesSnoc(rights: seq<Right>, right: Right)
    ensures Names(rights + [right]) == Names(rights) + [Name(right)]
  {
    hide Name;
    if rights != [] {
      NamesSnoc(rights[1..], right);
      assert (rights + [right])[1..] == rights[1..] + [right];
    }
  }

  lemma NamesAreWords()
    ensures forall right :: Name(right) != "" && ',' !in Name(right)
  {
  }

  lemma {:induction false} NamesLength(rights: seq<Right>)
    ensures |Names(rights)| == |rights|
  {
    if rights != [] {
      NamesLength(rights[1..]);
    }
  }

  /** Searching for a name finds exactly the rights that were joined, in any order and with repeats. */
  lemma SearchIsMembership(rights: seq<Right>, right: Right)
    requires IsSearched(right)
    ensures Contains(Join(Names(rights), ","), Name(right)) <==> right in rights
  {
    NamesAreWords();
    hide Name, Contains, IsSearched, Join;
    var text := Join(Names(rights), ",");
    if right in rights {
      var k :| 0 <= k < |rights| && rights[k] == right;
      NamesAt(rights, k);
      JoinContains(Names(rights), k);
    }
    if Contains(text, Name(right)) {
      InfixOfJoin(Names(rights), Name(right), Position(text, Name(right)));
      var k :| 0 <= k < |Names(rights)| && Contains(Names(rights)[k], Name(right));
      NamesLength(rights);
      NamesAt(rights, k);
      NameIsAlone(right, rights[k], Position(Name(rights[k]), Name(right)));
    }
  }

  lemma SearchedAreListed(right: Right)
    ensures right in SEARCHED <==> IsSearched(right)
  {
    assert SEARCHED[0] == GenericAll;
    assert SEARCHED[1] == GenericRead;
    assert SEARCHED[2] == GenericWrite;
    assert SEARCHED[3] == FileReadData;
    assert SEARCHED[4] == FileWriteData;
    assert SEARCHED[5] == FileAppendData;
    assert SEARCHED[6] == FileExecute;
    assert SEARCHED[7] == ReadControl;
    assert SEARCHED[8] == WriteDac;
    assert SEARCHED[9] == WriteOwner;
  }

  lemma FoundMember(text: string, right: Right)
    requires IsSearched(right)
    ensures right in Found(text) <==> Contains(text, Name(right))
  {
    SearchedAreListed(right);
    hide Contains, Name, SEARCHED;
    if right in Found(text) {
      FlatMember(IfNamed(text), SEARCHED, right);
    }
    if Contains(text, Name(right)) {
      FlatHas(IfNamed(text), SEARCHED, right, right);
    }
  }

  /** Rights texts act as bit sets: reading names joined in any order, with repeats, gives the union of their bits. */
  lemma RightsActAsBits(rights: seq<Right>)
    ensures UnionOf(Found(Join(Names(rights), ","))) == UnionOf(rights)
  {
    hide Found, UnionOf, Name, Names, Join, Contains, IsSearched;
    var text := Join(Names(rights), ",");
    forall right | IsSearched(right) ensures right in Found(text) <==> right in rights {
      FoundMember(text, right);
      SearchIsMembership(rights, right);
    }
    SameRightsSameUnion(Found(text), rights);
  }

  // ---------------------------------------------------------------- a mask and its rights

  lemma OneBit(mask: bv32, right: Right)
    ensures And(mask, KeptBit(right)) == if And(mask, Bit(right)) != 0 then KeptBit(right) else 0
  {
  }

  lemma Distribute(mask: bv32, a: bv32, b: bv32)
    ensures And(mask, Or(a, b)) == Or(And(mask, a), And(mask, b))
  {
  }

  lemma Zero(mask: bv32)
    ensures Or(mask, 0) == mask && And(mask, 0) == 0
  {
  }

  lemma {:induction false} UnionOfSet(mask: bv32, rights: seq<Right>)
    ensures UnionOf(Flat(IfSet(mask), rights)) == And(mask, UnionOf(rights))
  {
    hide KeptBit, Bit, Or, And, UnionOf, Flat;
    if rights == [] {
      FlatNone(IfSet(mask));
      EmptyUnion();
      Zero(mask);
    } else {
      var n := |rights| - 1;
      var before, last := rights[..n], rights[n];
      UnionOfSet(mask, before);
      assert rights == before + [last];
      UnionSnoc(before, last);
      Distribute(mask, UnionOf(before), KeptBit(last));
      FlatStep(IfSet(mask), rights, n);
      assert rights[..n + 1] == rights;
      OneBit(mask, last);
      if And(mask, Bit(last)) != 0 {
        UnionSnoc(Flat(IfSet(mask), before), last);
      } else {
        Zero(UnionOf(Flat(IfSet(mask), before)));
        assert Flat(IfSet(mask), rights) == Flat(IfSet(mask), before);
      }
    }
  }

  lemma EmptyUnion()
    ensures UnionOf([]) == 0
  {
  }

  lemma {:induction false} SearchedUnion()
    ensures UnionOf(SEARCHED) == SUPPORTED
  {
    SearchedEntries();
    SearchedOrder();
    hide UnionOf, IsEntry, SEARCHED, Or;
    assert SEARCHED[..0] == [];
    EmptyUnion();
    UnionAt(0, GenericAll, 0x1000_0000);
    UnionAt(1, GenericRead, 0x8000_0000);
    UnionAt(2, GenericWrite, 0x4000_0000);
    UnionAt(3, FileReadData, 0x0000_0001);
    UnionAt(4, FileWriteData, 0x0000_0002);
    UnionAt(5, FileAppendData, 0x0000_0004);
    UnionAt(6, FileExecute, 0x0000_0020);
    UnionAt(7, ReadControl, 0x0002_0000);
    UnionAt(8, WriteDac, 0x0004_0000);
    UnionAt(9, WriteOwner, 0x0008_0000);
    SupportedIsUnion();
    assert SEARCHED[..10] == SEARCHED;
  }

  lemma SupportedIsUnion()
    ensures Or(Or(Or(Or(Or(Or(Or(Or(Or(Or(0, 0x1000_0000), 0x8000_0000), 0x4000_0000), 0x0000_0001), 0x0000_0002),
            0x0000_0004), 0x0000_0020), 0x0002_0000), 0x0004_0000), 0x0008_0000) == SUPPORTED
  {
  }

  lemma UnionAt(i: nat, right: Right, bit: bv32)
    requires i < 10 && IsEntry(i, right, bit)
    ensures UnionOf(SEARCHED[..i + 1]) == Or(UnionOf(SEARCHED[..i]), bit)
  {
    hide KeptBit, Or, UnionOf, SEARCHED;
    assert SEARCHED[..i + 1] == SEARCHED[..i] + [SEARCHED[i]];
    UnionSnoc(SEARCHED[..i], SEARCHED[i]);
  }

  lemma AllRights(right: Right)
    ensures right in ALL
  {
    var i := match right
      case GenericRead => 0 case GenericWrite => 1 case GenericExecute => 2 case GenericAll => 3
      case FileReadData => 4 case FileWriteData => 5 case FileAppendData => 6 case FileReadEa => 7
      case FileWriteEa => 8 case FileExecute => 9 case FileDeleteChild => 10 case FileReadAttributes => 11
      case FileWriteAttributes => 12 case Delete => 13 case ReadControl => 14 case WriteDac => 15
      case WriteOwner => 16 case Synchronize => 17;
    assert ALL[i] == right;
  }

  /** The parts of a mask have its supported bits. */
  lemma PartsAreBits(mask: bv32)
    ensures UnionOf(Parts(mask)) == And(mask, SUPPORTED)
  {
    forall right: Right | IsSearched(right) ensures right in ALL <==> right in SEARCHED {
      AllRights(right);
      SearchedAreListed(right);
    }
    hide UnionOf, Flat, IsSearched, Or, And, KeptBit, Bit;
    SameRightsSameUnion(ALL, SEARCHED);
    SearchedUnion();
    UnionOfSet(mask, ALL);
  }

  // ---------------------------------------------------------------- a mask without names

  predicate IsHexText(c: char) { '0' <= c <= '9' || 'a' <= c <= 'f' || c == 'x' }

  lemma {:induction false} HexDigitsAreHex(n: nat)
    ensures forall c <- HexDigits(n) :: IsHexText(c)
  {
    var digits := "0123456789abcdef";
    assert forall i :: 0 <= i < 16 ==> IsHexText(digits[i]);
    if n >= 16 {
      HexDigitsAreHex(n / 16);
    }
  }

  lemma NamesAreNotHex(right: Right)
    ensures Name(right) != "" && !IsHexText(Name(right)[0])
  {
  }

  /** No right is named in a bare number. */
  lemma HexNamesNothing(mask: bv32)
    ensures UnionOf(Found(HexText(mask))) == 0
  {
    var text := HexText(mask);
    HexDigitsAreHex(mask as nat);
    hide HexDigits, Name;
    assert forall c <- text :: IsHexText(c);
    forall right: Right ensures !Contains(text, Name(right)) {
      NamesAreNotHex(right);
      if Contains(text, Name(right)) {
        CharAt(text, Name(right), Position(text, Name(right)), 0);
      }
    }
    hide Contains;
    forall right | IsSearched(right) ensures right in Found(text) <==> right in [] {
      FoundMember(text, right);
    }
    SameRightsSameUnion(Found(text), []);
    EmptyUnion();
  }

  // ---------------------------------------------------------------- single bits, written out

  /** Two rights share no bit. */
  lemma BitsAreApart(a: Right, b: Right)
    ensures And(Bit(a), Bit(b)) != 0 <==> a == b
  {
  }

  lemma {:induction false} OnlyPart(right: Right, rights: seq<Right>)
    requires forall i, j :: 0 <= i < j < |rights| ==> rights[i] != rights[j]
    ensures Flat(IfSet(Bit(right)), rights) == if right in rights then [right] else []
  {
    hide Bit, And;
    if rights != [] {
      var n := |rights| - 1;
      OnlyPart(right, rights[..n]);
      assert rights == rights[..n] + [rights[n]];
      assert right == rights[n] ==> right !in rights[..n];
      BitsAreApart(right, rights[n]);
    }
  }

  lemma AllAreDistinct()
    ensures |ALL| == 18 && forall i, j :: 0 <= i < j < |ALL| ==> ALL[i] != ALL[j]
  {
    TestedEntries();
    DistinctBits();
  }

  lemma DistinctBits()
    ensures forall i, j :: 0 <= i < j < |ALL| ==> ALL[i] != ALL[j]
  {
  }

  /** The text of a single bit is the name of its right. */
  lemma TextOfBit(right: Right)
    ensures RightsText(Bit(right)) == Name(right)
  {
    hide Bit, And, Name, ALL;
    AllAreDistinct();
    AllRights(right);
    OnlyPart(right, ALL);
    assert Parts(Bit(right)) == [right];
    assert Names([right]) == [Name(right)] by {
      assert [right][1..] == [];
      assert [Name(right)] + [] == [Name(right)];
    }
  }

  /** Every bit and its text. */
  lemma WhatBitsAreCalled()
    ensures RightsText(0x8000_0000) == "GENERIC_READ"
    ensures RightsText(0x4000_0000) == "GENERIC_WRITE"
    ensures RightsText(0x2000_0000) == "GENERIC_EXECUTE"
    ensures RightsText(0x1000_0000) == "GENERIC_ALL"
    ensures RightsText(0x0000_0001) == "FILE_READ_DATA"
    ensures RightsText(0x0000_0002) == "FILE_WRITE_DATA"
    ensures RightsText(0x0000_0004) == "FILE_APPEND_DATA"
    ensures RightsText(0x0000_0008) == "FILE_READ_EA"
    ensures RightsText(0x0000_0010) == "FILE_WRITE_EA"
    ensures RightsText(0x0000_0020) == "FILE_EXECUTE"
    ensures RightsText(0x0000_0040) == "FILE_DELETE_CHILD"
    ensures RightsText(0x0000_0080) == "FILE_READ_ATTRIBUTES"
    ensures RightsText(0x0000_0100) == "FILE_WRITE_ATTRIBUTES"
    ensures RightsText(0x0001_0000) == "DELETE"
    ensures RightsText(0x0002_0000) == "READ_CONTROL"
    ensures RightsText(0x0004_0000) == "WRITE_DAC"
    ensures RightsText(0x0008_0000) == "WRITE_OWNER"
    ensures RightsText(0x0010_0000) == "SYNCHRONIZE"
  {
    hide RightsText;
    TextOfBit(GenericRead);
    TextOfBit(GenericWrite);
    TextOfBit(GenericExecute);
    TextOfBit(GenericAll);
    TextOfBit(FileReadData);
    TextOfBit(FileWriteData);
    TextOfBit(FileAppendData);
    TextOfBit(FileReadEa);
    TextOfBit(FileWriteEa);
    TextOfBit(FileExecute);
    TextOfBit(FileDeleteChild);
    TextOfBit(FileReadAttributes);
    TextOfBit(FileWriteAttributes);
    TextOfBit(Delete);
    TextOfBit(ReadControl);
    TextOfBit(WriteDac);
    TextOfBit(WriteOwner);
    TextOfBit(Synchronize);
  }

  /** Every name that is searched for, and its bit. */
  lemma WhatNamesMean()
    ensures UnionOf(Found("GENERIC_ALL")) == 0x1000_0000
    ensures UnionOf(Found("GENERIC_READ")) == 0x8000_0000
    ensures UnionOf(Found("GENERIC_WRITE")) == 0x4000_0000
    ensures UnionOf(Found("FILE_READ_DATA")) == 0x0000_0001
    ensures UnionOf(Found("FILE_WRITE_DATA")) == 0x0000_0002
    ensures UnionOf(Found("FILE_APPEND_DATA")) == 0x0000_0004
    ensures UnionOf(Found("FILE_EXECUTE")) == 0x0000_0020
    ensures UnionOf(Found("READ_CONTROL")) == 0x0002_0000
    ensures UnionOf(Found("WRITE_DAC")) == 0x0004_0000
    ensures UnionOf(Found("WRITE_OWNER")) == 0x0008_0000
  {
    SearchedBits();
    hide Found, UnionOf, KeptBit;
    MeaningOf(GenericAll);
    MeaningOf(GenericRead);
    MeaningOf(GenericWrite);
    MeaningOf(FileReadData);
    MeaningOf(FileWriteData);
    MeaningOf(FileAppendData);
    MeaningOf(FileExecute);
    MeaningOf(ReadControl);
    MeaningOf(WriteDac);
    MeaningOf(WriteOwner);
  }

  lemma MeaningOf(right: Right)
    ensures UnionOf(Found(Name(right))) == KeptBit(right)
  {
    RightsActAsBits([right]);
    OneUnion(right);
    hide Found, UnionOf, Name, KeptBit;
    assert [right][1..] == [];
    assert [Name(right)] + [] == [Name(right)];
    assert Names([right]) == [Name(right)];
    assert Join([Name(right)], ",") == Name(right);
  }

  lemma OneUnion(right: Right)
    ensures UnionOf([right]) == KeptBit(right)
  {
    hide KeptBit;
    EmptyUnion();
    assert [right][..0] == [];
    ZeroFirst(KeptBit(right));
  }

  lemma ZeroFirst(a: bv32)
    ensures Or(0, a) == a
  {
  }

  /** The rights of a mask are those whose bits are set, in the order of the tests. */
  lemma WhatIsNamed(mask: bv32, right: Right)
    ensures right in Parts(mask) <==> And(mask, Bit(right)) != 0
  {
    hide Bit, And, ALL;
    AllRights(right);
    if right in Parts(mask) {
      FlatMember(IfSet(mask), ALL, right);
    }
    if And(mask, Bit(right)) != 0 {
      FlatHas(IfSet(mask), ALL, right, right);
    }
  }

  // ---------------------------------------------------------------- numbers

  function DigitValue(c: char): nat
  {
    if '0' <= c <= '9' then c as nat - '0' as nat else if 'a' <= c <= 'f' then 10 + (c as nat - 'a' as nat) else 0
  }

  function HexValue(digits: string): nat
  {
    if digits == "" then 0 else 16 * HexValue(digits[..|digits| - 1]) + DigitValue(digits[|digits| - 1])
  }

  /** The digits of a number have its value, and no leading zero. */
  lemma {:induction false} HexReadsBack(n: nat)
    ensures HexDigits(n) != "" && HexValue(HexDigits(n)) == n
    ensures n > 0 ==> HexDigits(n)[0] != '0'
  {
    DigitIs(n % 16);
    var digit := ["0123456789abcdef"[n % 16]];
    if n < 16 {
      assert digit[..0] == "";
    } else {
      HexReadsBack(n / 16);
      var s := HexDigits(n / 16) + digit;
      assert s[..|s| - 1] == HexDigits(n / 16);
    }
  }

  lemma DigitIs(d: nat)
    requires d < 16
    ensures DigitValue("0123456789abcdef"[d]) == d && (d > 0 ==> "0123456789abcdef"[d] != '0')
  {
  }
}
