/**
 The selection engine of the H110 motherboard compatibility table: the
 constant table of boards, the manufacturer button list derived from it, the
 search-and-manufacturer filter that decides which rows are shown, and the
 expand/collapse toggle that decides which row shows its details.
 */
module CompatibilityTable {
  import opened Text
  import opened Sequences

  datatype Option<T> = None | Some(value: T)

  /** One motherboard record. Only the name, manufacturer and CPU list are computed on. */
  datatype Board = Board(
    motherboard: string,
    manufacturer: string,
    socket: string,
    chipset: string,
    supportedCpus: seq<string>,
    maxRam: string,
    ramSlots: nat,
    formFactor: string,
    price: Option<string>,
    features: seq<string>)

  /** The sentinel manufacturer value that disables the manufacturer filter. */
  const All: string := "all"

  const AsusH110mK: Board := Board(
    "ASUS H110M-K", "ASUS", "LGA1151", "H110",
    ["Intel Core i3-6100", "Intel Core i5-6400", "Intel Core i5-6500", "Intel Core i7-6700"],
    "32GB", 2, "Micro-ATX", Some("~3500₽"),
    ["USB 3.0", "SATA 6Gb/s", "PCIe 3.0"])

  const MsiH110mProVd: Board := Board(
    "MSI H110M PRO-VD", "MSI", "LGA1151", "H110",
    ["Intel Core i3-6100", "Intel Core i5-6400", "Intel Core i5-6500", "Intel Core i7-6700", "Intel Pentium G4400"],
    "32GB", 2, "Micro-ATX", Some("~3200₽"),
    ["USB 3.0", "SATA 6Gb/s", "DDR4-2133"])

  const GigabyteGaH110mS2h: Board := Board(
    "Gigabyte GA-H110M-S2H", "Gigabyte", "LGA1151", "H110",
    ["Intel Core i3-6100", "Intel Core i5-6400", "Intel Core i5-6500", "Intel Core i7-6700K", "Intel Pentium G4500"],
    "32GB", 2, "Micro-ATX", Some("~3800₽"),
    ["USB 3.0", "HDMI", "DVI-D", "VGA"])

  const AsrockH110mDgs: Board := Board(
    "ASRock H110M-DGS", "ASRock", "LGA1151", "H110",
    ["Intel Core i3-6300", "Intel Core i5-6600", "Intel Core i7-6700", "Intel Celeron G3900"],
    "32GB", 2, "Micro-ATX", Some("~2900₽"),
    ["USB 3.0", "SATA 6Gb/s", "Full Spike Protection"])

  /** The fixed table, in display order. */
  const CompatibilityData: seq<Board> := [AsusH110mK, MsiH110mProVd, GigabyteGaH110mS2h, AsrockH110mDgs]

  /** Board names identify rows: no two records share one. */
  predicate NamesDistinct(rows: seq<Board>) {
    forall i, j :: 0 <= i < j < |rows| ==> rows[i].motherboard != rows[j].motherboard
  }

  lemma CompatibilityDataNamesDistinct()
    ensures NamesDistinct(CompatibilityData)
    ensures forall b :: b in CompatibilityData ==> b.manufacturer != All
  {
  }

  // ---------------------------------------------------------------------
  // Manufacturer list
  // ---------------------------------------------------------------------

  /** The manufacturer of every record, in table order. */
  function ManufacturerColumn(data: seq<Board>): (r: seq<string>)
    ensures |r| == |data|
    ensures forall i :: 0 <= i < |data| ==> r[i] == data[i].manufacturer
  {
    if data == [] then [] else [data[0].manufacturer] + ManufacturerColumn(data[1..])
  }

  /**
   The manufacturer buttons: `All` followed by each distinct manufacturer. The
   list starts with `All`, holds every record's manufacturer, and repeats
   nothing after `All`.
   */
  function Manufacturers(data: seq<Board>): (r: seq<string>)
    ensures |r| >= 1 && r[0] == All
    ensures forall i :: 0 <= i < |data| ==> data[i].manufacturer in r[1..]
    ensures NoDuplicates(r[1..])
  {
    var d := Distinct(ManufacturerColumn(data));
    assert ([All] + d)[1..] == d;
    [All] + d
  }

  /**
   The button list starts with `All`; after it comes every record's manufacturer
   and nothing else, each once.
   */
  lemma ManufacturersSpec(data: seq<Board>)
    ensures |Manufacturers(data)| >= 1 && Manufacturers(data)[0] == All
    ensures forall i :: 0 <= i < |data| ==> data[i].manufacturer in Manufacturers(data)[1..]
    ensures forall k :: 1 <= k < |Manufacturers(data)| ==>
      exists i :: 0 <= i < |data| && data[i].manufacturer == Manufacturers(data)[k]
    ensures NoDuplicates(Manufacturers(data)[1..])
  {
    var col := ManufacturerColumn(data);
    var ms := Manufacturers(data);
    assert ms[1..] == Distinct(col);
    forall k | 1 <= k < |ms|
      ensures exists i :: 0 <= i < |data| && data[i].manufacturer == ms[k]
    {
      assert ms[k] == Distinct(col)[k - 1];
      var i := FirstIndex(col, ms[k]);
      assert data[i].manufacturer == ms[k];
    }
  }

  /** The manufacturers after `All` come in the order in which the table first uses them. */
  lemma ManufacturersOrder(data: seq<Board>)
    ensures var col, ms := ManufacturerColumn(data), Manufacturers(data)[1..];
      forall i, j :: 0 <= i < j < |ms| ==> FirstIndex(col, ms[i]) < FirstIndex(col, ms[j])
  {
    var col := ManufacturerColumn(data);
    assert Manufacturers(data)[1..] == Distinct(col);
    DistinctFirstOccurrenceOrder(col);
  }

  /** The whole button list is duplicate-free when no record uses the `All` sentinel as its manufacturer. */
  lemma ManufacturersNoDuplicates(data: seq<Board>)
    requires forall i :: 0 <= i < |data| ==> data[i].manufacturer != All
    ensures NoDuplicates(Manufacturers(data))
  {
    var col := ManufacturerColumn(data);
    var ms := Manufacturers(data);
    assert ms[1..] == Distinct(col);
    forall k | 1 <= k < |ms| ensures ms[k] != All {
      assert ms[k] == Distinct(col)[k - 1];
      var i := FirstIndex(col, ms[k]);
      assert data[i].manufacturer == ms[k];
    }
  }

  /** Deriving the manufacturer set again from its own output changes nothing. */
  lemma ManufacturersIdempotent(data: seq<Board>)
    ensures Distinct(Manufacturers(data)[1..]) == Manufacturers(data)[1..]
  {
    assert Manufacturers(data)[1..] == Distinct(ManufacturerColumn(data));
    DistinctIdempotent(ManufacturerColumn(data));
  }

  /** The table's manufacturer column, in table order. */
  lemma ManufacturerColumnOfTable()
    ensures ManufacturerColumn(CompatibilityData) == ["ASUS", "MSI", "Gigabyte", "ASRock"]
  {
    var d := CompatibilityData;
    assert d[1..][1..][1..][1..] == [];
  }

  /** A manufacturer column without repeats becomes the button list as it is, after `All`. */
  lemma ManufacturersOfDistinctColumn(data: seq<Board>)
    requires NoDuplicates(ManufacturerColumn(data))
    ensures Manufacturers(data) == [All] + ManufacturerColumn(data)
  {
    DistinctOfNoDuplicates(ManufacturerColumn(data));
  }

  /** On the fixed table the buttons read: all, ASUS, MSI, Gigabyte, ASRock. */
  lemma ManufacturersOfTable()
    ensures Manufacturers(CompatibilityData) == [All, "ASUS", "MSI", "Gigabyte", "ASRock"]
  {
    ManufacturerColumnOfTable();
    FourMakersDistinct(ManufacturerColumn(CompatibilityData));
    ManufacturersOfDistinctColumn(CompatibilityData);
  }

  /** ASUS, MSI, Gigabyte and ASRock are four different names (of four different lengths). */
  lemma FourMakersDistinct(col: seq<string>)
    requires col == ["ASUS", "MSI", "Gigabyte", "ASRock"]
    ensures NoDuplicates(col)
  {
    assert |col[0]| == 4 && |col[1]| == 3 && |col[2]| == 8 && |col[3]| == 6;
  }

  // ---------------------------------------------------------------------
  // Filter
  // ---------------------------------------------------------------------

  /**
   The search condition: the lower-cased term occurs in the lower-cased board
   name, or in some lower-cased supported CPU (`supportedCpus.some(...)`).
   */
  predicate MatchesSearch(b: Board, searchTerm: string)
    ensures searchTerm == "" ==> MatchesSearch(b, searchTerm)
  {
    ContainsEmpty(ToLower(b.motherboard));
    var needle := ToLower(searchTerm);
    Contains(ToLower(b.motherboard), needle)
      || exists i :: 0 <= i < |b.supportedCpus| && Contains(ToLower(b.supportedCpus[i]), needle)
  }

  /**
   The manufacturer condition: the `All` sentinel, or exact (case-sensitive)
   equality. Every record passes under `All` and under its own manufacturer.
   */
  predicate MatchesManufacturer(b: Board, selected: string)
    ensures selected == All ==> MatchesManufacturer(b, selected)
    ensures selected == b.manufacturer ==> MatchesManufacturer(b, selected)
  {
    selected == All || b.manufacturer == selected
  }

  /**
   A record is shown when both conditions hold. Under `All` only the search
   decides; an empty search under the record's own manufacturer shows it.
   */
  predicate Shown(b: Board, searchTerm: string, selected: string)
    ensures selected == All ==> (Shown(b, searchTerm, selected) <==> MatchesSearch(b, searchTerm))
    ensures searchTerm == "" && selected == b.manufacturer ==> Shown(b, searchTerm, selected)
  {
    MatchesSearch(b, searchTerm) && MatchesManufacturer(b, selected)
  }

  /** `compatibilityData.filter(...)`: the shown records, in table order. */
  function Filter(data: seq<Board>, searchTerm: string, selected: string): (r: seq<Board>)
    ensures |r| <= |data|
  {
    if data == [] then []
    else
      var rest := Filter(data[1..], searchTerm, selected);
      if Shown(data[0], searchTerm, selected) then [data[0]] + rest else rest
  }

  /** A record is in the result exactly when it is in the table and passes both conditions. */
  lemma {:induction false} FilterMembership(data: seq<Board>, searchTerm: string, selected: string)
    ensures forall b :: b in Filter(data, searchTerm, selected) <==> b in data && Shown(b, searchTerm, selected)
  {
    if data != [] {
      FilterMembership(data[1..], searchTerm, selected);
      assert data == [data[0]] + data[1..];
    }
  }

  /**
   Each record occurs in the result as often as in the input when it passes,
   and not at all otherwise; with `FilterIsSubsequence` this fixes the result
   even when the input repeats a record.
   */
  lemma {:induction false} FilterMultiset(data: seq<Board>, searchTerm: string, selected: string, b: Board)
    ensures multiset(Filter(data, searchTerm, selected))[b]
      == if Shown(b, searchTerm, selected) then multiset(data)[b] else 0
  {
    if data != [] {
      FilterMultiset(data[1..], searchTerm, selected, b);
      assert data == [data[0]] + data[1..];
    }
  }

  /** The filter decides the first record, then filters the rest. */
  lemma FilterStep(data: seq<Board>, searchTerm: string, selected: string)
    requires data != []
    ensures Filter(data, searchTerm, selected)
      == (if Shown(data[0], searchTerm, selected) then [data[0]] else []) + Filter(data[1..], searchTerm, selected)
  {
  }

  /** The filter only deletes records; what it keeps stays in table order. */
  lemma {:induction false} FilterIsSubsequence(data: seq<Board>, searchTerm: string, selected: string)
    ensures IsSubsequence(Filter(data, searchTerm, selected), data)
  {
    if data != [] {
      var r := Filter(data, searchTerm, selected);
      FilterIsSubsequence(data[1..], searchTerm, selected);
      if Shown(data[0], searchTerm, selected) {
        assert r[0] == data[0] && r[1..] == Filter(data[1..], searchTerm, selected);
      } else if r != [] {
        assert r == Filter(data[1..], searchTerm, selected);
      }
    }
  }

  /** Every record of a sequence passes exactly when the filter returns the sequence itself. */
  lemma {:induction false} FilterKeepsAllIff(data: seq<Board>, searchTerm: string, selected: string)
    ensures Filter(data, searchTerm, selected) == data
        <==> forall i :: 0 <= i < |data| ==> Shown(data[i], searchTerm, selected)
  {
    if data != [] {
      FilterKeepsAllIff(data[1..], searchTerm, selected);
      var rest := Filter(data[1..], searchTerm, selected);
      if !Shown(data[0], searchTerm, selected) {
        assert |Filter(data, searchTerm, selected)| < |data|;
      } else {
        assert Filter(data, searchTerm, selected) == [data[0]] + rest;
        assert data == [data[0]] + data[1..];
        assert forall i :: 1 <= i < |data| ==> data[i] == data[1..][i - 1];
      }
    }
  }

  /** An empty search term with the `All` sentinel shows every record, unchanged and in order. */
  lemma FilterEmptyAll(data: seq<Board>)
    ensures Filter(data, "", All) == data
  {
    assert ToLower("") == "";
    forall i | 0 <= i < |data| ensures Shown(data[i], "", All) {
      ContainsEmpty(ToLower(data[i].motherboard));
    }
    FilterKeepsAllIff(data, "", All);
  }

  /** Search terms with the same lower-case form select the same records. */
  lemma {:induction false} FilterCaseInsensitive(data: seq<Board>, t1: string, t2: string, selected: string)
    requires ToLower(t1) == ToLower(t2)
    ensures Filter(data, t1, selected) == Filter(data, t2, selected)
  {
    if data != [] {
      FilterCaseInsensitive(data[1..], t1, t2, selected);
    }
  }

  /** In particular a term and its own lower-case form select the same records. */
  lemma FilterIgnoresTermCase(data: seq<Board>, searchTerm: string, selected: string)
    ensures Filter(data, ToLower(searchTerm), selected) == Filter(data, searchTerm, selected)
  {
    ToLowerIdempotent(searchTerm);
    FilterCaseInsensitive(data, ToLower(searchTerm), searchTerm, selected);
  }

  /** Filtering the shown rows again with the same inputs returns them unchanged. */
  lemma FilterIdempotent(data: seq<Board>, searchTerm: string, selected: string)
    ensures Filter(Filter(data, searchTerm, selected), searchTerm, selected) == Filter(data, searchTerm, selected)
  {
    var r := Filter(data, searchTerm, selected);
    assert forall i :: 0 <= i < |r| ==> r[i] in r;
    FilterKeepsAllIff(r, searchTerm, selected);
  }

  /** A manufacturer value no record carries (other than the sentinel) yields no rows, never an error. */
  lemma {:induction false} FilterUnknownManufacturer(data: seq<Board>, searchTerm: string, selected: string)
    requires selected != All
    requires forall i :: 0 <= i < |data| ==> data[i].manufacturer != selected
    ensures Filter(data, searchTerm, selected) == []
  {
    if data != [] {
      FilterUnknownManufacturer(data[1..], searchTerm, selected);
    }
  }

  /** Every manufacturer button selects at least one record of a non-empty table under an empty search. */
  lemma ManufacturerButtonsSelectSomething(data: seq<Board>, selected: string)
    requires |data| > 0
    requires selected in Manufacturers(data)
    ensures Filter(data, "", selected) != []
  {
    if selected == All {
      FilterEmptyAll(data);
    } else {
      ManufacturersSpec(data);
      FilterMembership(data, "", selected);
      var k :| 0 <= k < |Manufacturers(data)| && Manufacturers(data)[k] == selected;
      var i :| 0 <= i < |data| && data[i].manufacturer == selected;
      assert ToLower("") == "";
      ContainsEmpty(ToLower(data[i].motherboard));
      assert Shown(data[i], "", selected);
      assert data[i] in Filter(data, "", selected);
    }
  }

  /** Filtering keeps board names distinct, so the `key` of each shown row's inner `TableRow` stays unique. */
  lemma {:induction false} FilterNamesDistinct(data: seq<Board>, searchTerm: string, selected: string)
    requires NamesDistinct(data)
    ensures NamesDistinct(Filter(data, searchTerm, selected))
  {
    if data != [] {
      var rest := Filter(data[1..], searchTerm, selected);
      assert NamesDistinct(data[1..]);
      FilterNamesDistinct(data[1..], searchTerm, selected);
      FilterMembership(data[1..], searchTerm, selected);
      if Shown(data[0], searchTerm, selected) {
        var r := [data[0]] + rest;
        forall j | 1 <= j < |r| ensures r[0].motherboard != r[j].motherboard {
          assert r[j] == rest[j - 1];
          assert rest[j - 1] in data[1..];
        }
      }
    }
  }

  // ---------------------------------------------------------------------
  // Scenarios on the fixed table
  // ---------------------------------------------------------------------

  /** A term spelled out inside one of the board's CPU names matches the board. */
  lemma SearchHitsCpu(b: Board, searchTerm: string, i: nat, k: nat)
    requires i < |b.supportedCpus| && OccursAt(b.supportedCpus[i], searchTerm, k)
    ensures MatchesSearch(b, searchTerm)
  {
    OccursLowered(b.supportedCpus[i], searchTerm, k);
  }

  /** A term spelled out inside the board's name matches the board. */
  lemma SearchHitsName(b: Board, searchTerm: string, k: nat)
    requires OccursAt(b.motherboard, searchTerm, k)
    ensures MatchesSearch(b, searchTerm)
  {
    OccursLowered(b.motherboard, searchTerm, k);
  }

  /** No CPU of the ASRock board mentions "i5-6400": none of them has a '4'. */
  lemma AsrockCpuMissesI5_6400(i: nat)
    requires i < |AsrockH110mDgs.supportedCpus|
    ensures !Contains(ToLower(AsrockH110mDgs.supportedCpus[i]), "i5-6400")
  {
    var cpus := AsrockH110mDgs.supportedCpus;
    if i == 0 { assert '4' !in cpus[0]; }
    else if i == 1 { assert '4' !in cpus[1]; }
    else if i == 2 { assert '4' !in cpus[2]; }
    else { assert '4' !in cpus[3]; }
    MissingChar(cpus[i], "i5-6400", '4', '4');
  }

  /** The ASRock board does not match "i5-6400". */
  lemma AsrockMissesI5_6400()
    ensures !MatchesSearch(AsrockH110mDgs, "i5-6400")
  {
    var b := AsrockH110mDgs;
    forall i | 0 <= i < |b.supportedCpus| ensures !Contains(ToLower(b.supportedCpus[i]), "i5-6400") {
      AsrockCpuMissesI5_6400(i);
    }
    MissingChar(b.motherboard, "i5-6400", '4', '4');
    SearchMisses(b, "i5-6400");
  }

  /** A board whose second CPU is the Core i5-6400 matches "i5-6400". */
  lemma I5_6400Matches(b: Board)
    requires |b.supportedCpus| > 1 && b.supportedCpus[1] == "Intel Core i5-6400"
    ensures MatchesSearch(b, "i5-6400")
  {
    assert "Intel Core i5-6400"[11..18] == "i5-6400";
    SearchHitsCpu(b, "i5-6400", 1, 11);
  }

  /** "i5-6400" selects the three boards listing that CPU, in table order. */
  lemma FilterI5_6400()
    ensures Filter(CompatibilityData, "i5-6400", All) == [AsusH110mK, MsiH110mProVd, GigabyteGaH110mS2h]
  {
    var d, t := CompatibilityData, "i5-6400";
    AsrockMissesI5_6400();
    I5_6400Matches(AsusH110mK);
    I5_6400Matches(MsiH110mProVd);
    I5_6400Matches(GigabyteGaH110mS2h);
    FilterStep(d, t, All);
    FilterStep(d[1..], t, All);
    FilterStep(d[2..], t, All);
    FilterStep(d[3..], t, All);
  }

  /** An empty search with "MSI" selects exactly the one MSI board. */
  lemma FilterMsi()
    ensures Filter(CompatibilityData, "", "MSI") == [MsiH110mProVd]
  {
    var d := CompatibilityData;
    FilterStep(d, "", "MSI");
    FilterStep(d[1..], "", "MSI");
    FilterStep(d[2..], "", "MSI");
    FilterStep(d[3..], "", "MSI");
  }

  /** The manufacturer match is case-sensitive: "msi" selects nothing. */
  lemma FilterLowerCaseManufacturer(searchTerm: string)
    ensures Filter(CompatibilityData, searchTerm, "msi") == []
  {
    FilterUnknownManufacturer(CompatibilityData, searchTerm, "msi");
  }

  /** "ASUS" and "asus" select the same rows. */
  lemma FilterAsusEitherCase()
    ensures Filter(CompatibilityData, "ASUS", All) == Filter(CompatibilityData, "asus", All)
  {
    assert ToLower("ASUS") == ToLower("asus");
    FilterCaseInsensitive(CompatibilityData, "ASUS", "asus", All);
  }

  /**
   A lower-case term misses the board when neither the lower-cased name nor
   any lower-cased CPU name includes it.
   */
  lemma SearchMisses(b: Board, searchTerm: string)
    requires IsLower(searchTerm)
    requires !Contains(ToLower(b.motherboard), searchTerm)
    requires forall i :: 0 <= i < |b.supportedCpus| ==> !Contains(ToLower(b.supportedCpus[i]), searchTerm)
    ensures !MatchesSearch(b, searchTerm)
  {
    ToLowerOfLower(searchTerm);
  }

  /** When no record matches the search, the filter returns nothing. */
  lemma {:induction false} FilterUnknownTerm(data: seq<Board>, searchTerm: string, selected: string)
    requires forall i :: 0 <= i < |data| ==> !MatchesSearch(data[i], searchTerm)
    ensures Filter(data, searchTerm, selected) == []
  {
    if data != [] {
      FilterUnknownTerm(data[1..], searchTerm, selected);
    }
  }

  /** `s` holds neither 'z' nor 'Z'. */
  predicate LacksZ(s: string) {
    forall j :: 0 <= j < |s| ==> s[j] != 'z' && s[j] != 'Z'
  }

  /** The board names of the table, written out, hold no 'z' or 'Z'. */
  lemma NamesLackZ()
    ensures LacksZ("ASUS H110M-K") && LacksZ("MSI H110M PRO-VD")
    ensures LacksZ("Gigabyte GA-H110M-S2H") && LacksZ("ASRock H110M-DGS")
  {
  }

  /** The CPU names of the table, written out, hold no 'z' or 'Z'. */
  lemma CpusLackZ()
    ensures LacksZ("Intel Core i3-6100") && LacksZ("Intel Core i3-6300")
    ensures LacksZ("Intel Core i5-6400") && LacksZ("Intel Core i5-6500") && LacksZ("Intel Core i5-6600")
    ensures LacksZ("Intel Core i7-6700") && LacksZ("Intel Core i7-6700K")
    ensures LacksZ("Intel Pentium G4400") && LacksZ("Intel Pentium G4500") && LacksZ("Intel Celeron G3900")
  {
  }
  /** No board name of the table holds a 'z' or a 'Z'. */
  lemma NameLacksZ(k: nat)
    requires k < |CompatibilityData|
    ensures LacksZ(CompatibilityData[k].motherboard)
  {
    var name := CompatibilityData[k].motherboard;
    NamesLackZ();
    if k == 0 { assert name == "ASUS H110M-K"; }
    else if k == 1 { assert name == "MSI H110M PRO-VD"; }
    else if k == 2 { assert name == "Gigabyte GA-H110M-S2H"; }
    else { assert name == "ASRock H110M-DGS"; }
  }

  /** No CPU name of the table holds a 'z' or a 'Z'. */
  lemma CpuLacksZ(k: nat, i: nat)
    requires k < |CompatibilityData| && i < |CompatibilityData[k].supportedCpus|
    ensures LacksZ(CompatibilityData[k].supportedCpus[i])
  {
    var c := CompatibilityData[k].supportedCpus[i];
    CpusLackZ();
    if k == 0 {
      var cs := AsusH110mK.supportedCpus;
      assert cs == ["Intel Core i3-6100", "Intel Core i5-6400", "Intel Core i5-6500", "Intel Core i7-6700"];
      assert c == cs[i];
    } else if k == 1 {
      var cs := MsiH110mProVd.supportedCpus;
      assert cs == ["Intel Core i3-6100", "Intel Core i5-6400", "Intel Core i5-6500", "Intel Core i7-6700", "Intel Pentium G4400"];
      assert c == cs[i];
    } else if k == 2 {
      var cs := GigabyteGaH110mS2h.supportedCpus;
      assert cs == ["Intel Core i3-6100", "Intel Core i5-6400", "Intel Core i5-6500", "Intel Core i7-6700K", "Intel Pentium G4500"];
      assert c == cs[i];
    } else {
      var cs := AsrockH110mDgs.supportedCpus;
      assert cs == ["Intel Core i3-6300", "Intel Core i5-6600", "Intel Core i7-6700", "Intel Celeron G3900"];
      assert c == cs[i];
    }
  }

  /** "zzz-nonexistent" matches no record of the table. */
  lemma NonexistentMisses(k: nat)
    requires k < |CompatibilityData|
    ensures !MatchesSearch(CompatibilityData[k], "zzz-nonexistent")
  {
    var b, t := CompatibilityData[k], "zzz-nonexistent";
    assert t[0] == 'z';
    NameLacksZ(k);
    MissingChar(b.motherboard, t, 'z', 'Z');
    forall i | 0 <= i < |b.supportedCpus| ensures !Contains(ToLower(b.supportedCpus[i]), t) {
      CpuLacksZ(k, i);
      MissingChar(b.supportedCpus[i], t, 'z', 'Z');
    }
    SearchMisses(b, t);
  }

  /** A term found nowhere in the table selects no rows, whatever manufacturer is selected. */
  lemma FilterNonexistent(selected: string)
    ensures Filter(CompatibilityData, "zzz-nonexistent", selected) == []
  {
    forall k | 0 <= k < |CompatibilityData| ensures !MatchesSearch(CompatibilityData[k], "zzz-nonexistent") {
      NonexistentMisses(k);
    }
    FilterUnknownTerm(CompatibilityData, "zzz-nonexistent", selected);
  }

  // ---------------------------------------------------------------------
  // Expanded row
  // ---------------------------------------------------------------------

  /** `toggleRow(key)`: collapse when `key` is the expanded row, otherwise expand `key`. */
  function Toggle(expanded: Option<string>, key: string): (r: Option<string>)
    ensures r != expanded
    ensures r == None || r == Some(key)
    ensures r == None <==> expanded == Some(key)
  {
    if expanded == Some(key) then None else Some(key)
  }

  /** Toggling the same row twice restores the previous expanded row. */
  lemma ToggleTwice(expanded: Option<string>, key: string)
    requires expanded == None || expanded == Some(key)
    ensures Toggle(Toggle(expanded, key), key) == expanded
  {
  }

  /**
   From another expanded row, toggling the same row twice does not restore it:
   the first toggle replaces the other row, the second collapses everything.
   */
  lemma ToggleTwiceFromOther(other: string, key: string)
    requires other != key
    ensures Toggle(Toggle(Some(other), key), key) == None
  {
  }

  /** Toggling one row and then another leaves only the second expanded. */
  lemma ToggleOther(expanded: Option<string>, k1: string, k2: string)
    requires k1 != k2
    ensures Toggle(Toggle(expanded, k1), k2) == Some(k2)
  {
  }

  /** The displayed rows whose detail panel is open (`expandedRow === item.motherboard`). */
  function ExpandedRows(rows: seq<Board>, expanded: Option<string>): (r: seq<Board>)
    ensures forall b :: b in r <==> b in rows && expanded == Some(b.motherboard)
  {
    if rows == [] then []
    else
      var rest := ExpandedRows(rows[1..], expanded);
      if expanded == Some(rows[0].motherboard) then [rows[0]] + rest else rest
  }

  /** No row is expanded when no row carries the expanded name. */
  lemma {:induction false} ExpandedRowsAbsent(rows: seq<Board>, expanded: Option<string>)
    requires forall i :: 0 <= i < |rows| ==> expanded != Some(rows[i].motherboard)
    ensures ExpandedRows(rows, expanded) == []
  {
    if rows != [] {
      ExpandedRowsAbsent(rows[1..], expanded);
    }
  }

  /** With distinct names, at most one row has its detail panel open. */
  lemma {:induction false} AtMostOneExpanded(rows: seq<Board>, expanded: Option<string>)
    requires NamesDistinct(rows)
    ensures |ExpandedRows(rows, expanded)| <= 1
  {
    if rows != [] {
      assert NamesDistinct(rows[1..]);
      AtMostOneExpanded(rows[1..], expanded);
      if expanded == Some(rows[0].motherboard) {
        assert forall i :: 0 <= i < |rows[1..]| ==> rows[1..][i] == rows[i + 1];
        ExpandedRowsAbsent(rows[1..], expanded);
      }
    }
  }

  /** Expanding a displayed row opens exactly that row's detail panel. */
  lemma ExpandedRowsOfShown(rows: seq<Board>, b: Board)
    requires NamesDistinct(rows) && b in rows
    ensures ExpandedRows(rows, Some(b.motherboard)) == [b]
  {
    var r := ExpandedRows(rows, Some(b.motherboard));
    AtMostOneExpanded(rows, Some(b.motherboard));
    assert b in r;
  }
}
