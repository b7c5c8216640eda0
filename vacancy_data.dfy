/** The `data` table of data.js as constants, the `frontendDev` and `pythonDev`
    subtrees of the `en` and `ua` translation tables, and the facts about the table
    that the catalog code relies on. */
module VacancyData {
  import opened Strings
  import opened Vacancies

  /** `data.FRONTEND_DEV`. */
  const FrontendDev: Vacancy :=
    Vacancy(4, "./img/vue-icon.svg", "frontendDev.position", "frontendDev.description",
            "frontendDev.experience", "frontendDev.officeAdress", "frontendDev.office",
            "FRONTEND_DEV", false, true,
            [FrontendDevParagraph1, FrontendDevParagraph2, FrontendDevParagraph3])

  /** `data.FRONTEND_DEV.inside.paragraph1`. */
  const FrontendDevParagraph1: (string, Section) :=
    ("paragraph1", Section("frontendDev.paragraph1.title", [
        "frontendDev.paragraph1.1",
        "frontendDev.paragraph1.2",
        "frontendDev.paragraph1.3",
        "frontendDev.paragraph1.4",
        "frontendDev.paragraph1.5",
        "frontendDev.paragraph1.6",
        "frontendDev.paragraph1.7",
        "frontendDev.paragraph1.8",
        "frontendDev.paragraph1.9",
        "frontendDev.paragraph1.10",
        "frontendDev.paragraph1.11"
      ]))

  /** `data.FRONTEND_DEV.inside.paragraph2`. */
  const FrontendDevParagraph2: (string, Section) :=
    ("paragraph2", Section("frontendDev.paragraph2.title", [
        "frontendDev.paragraph2.1",
        "frontendDev.paragraph2.2",
        "frontendDev.paragraph2.3",
        "frontendDev.paragraph2.4",
        "frontendDev.paragraph2.5",
        "frontendDev.paragraph2.6",
        "frontendDev.paragraph2.7"
      ]))

  /** `data.FRONTEND_DEV.inside.paragraph3`. */
  const FrontendDevParagraph3: (string, Section) :=
    ("paragraph3", Section("frontendDev.paragraph3.title", [
        "frontendDev.paragraph3.1",
        "frontendDev.paragraph3.2",
        "frontendDev.paragraph3.3",
        "frontendDev.paragraph3.4",
        "frontendDev.paragraph3.5"
      ]))

  /** `data.PYTHON_DEV`. */
  const PythonDev: Vacancy :=
    Vacancy(5, "./img/python-icon.png", "pythonDev.position", "pythonDev.description",
            "pythonDev.experience", "pythonDev.officeAdress", "pythonDev.office",
            "PYTHON_DEV", false, true,
            [PythonDevParagraph1, PythonDevParagraph2, PythonDevParagraph3])

  /** `data.PYTHON_DEV.inside.paragraph1`. */
  const PythonDevParagraph1: (string, Section) :=
    ("paragraph1", Section("pythonDev.paragraph1.title", [
        "pythonDev.paragraph1.1",
        "pythonDev.paragraph1.2",
        "pythonDev.paragraph1.3",
        "pythonDev.paragraph1.4",
        "pythonDev.paragraph1.5",
        "pythonDev.paragraph1.6",
        "pythonDev.paragraph1.7",
        "pythonDev.paragraph1.8",
        "pythonDev.paragraph1.9",
        "pythonDev.paragraph1.10",
        "pythonDev.paragraph1.11"
      ]))

  /** `data.PYTHON_DEV.inside.paragraph2`. */
  const PythonDevParagraph2: (string, Section) :=
    ("paragraph2", Section("pythonDev.paragraph2.title", [
        "pythonDev.paragraph2.1",
        "pythonDev.paragraph2.2",
        "pythonDev.paragraph2.3",
        "pythonDev.paragraph2.4",
        "pythonDev.paragraph2.5",
        "pythonDev.paragraph2.6"
      ]))

  /** `data.PYTHON_DEV.inside.paragraph3`. */
  const PythonDevParagraph3: (string, Section) :=
    ("paragraph3", Section("pythonDev.paragraph3.title", [
        "pythonDev.paragraph3.1",
        "pythonDev.paragraph3.2",
        "pythonDev.paragraph3.3",
        "pythonDev.paragraph3.4"
      ]))

  /** `data`: every other entry of the table is commented out. */
  const Data: Table := [("FRONTEND_DEV", FrontendDev), ("PYTHON_DEV", PythonDev)]

  /** `dataHide`: reassigned to an object whose entries are all commented out. */
  const DataHide: Table := []

  /** The keys of the `frontendDev` and `pythonDev` subtrees of `en.translation`, each written as its dotted path, the form in which i18next looks a `translate-id` up. */
  const EnKeys: set<string> := {
    "frontendDev.position",
    "frontendDev.description",
    "frontendDev.experience",
    "frontendDev.officeAdress",
    "frontendDev.office",
    "frontendDev.paragraph1.title",
    "frontendDev.paragraph1.1",
    "frontendDev.paragraph1.2",
    "frontendDev.paragraph1.3",
    "frontendDev.paragraph1.4",
    "frontendDev.paragraph1.5",
    "frontendDev.paragraph1.6",
    "frontendDev.paragraph1.7",
    "frontendDev.paragraph1.8",
    "frontendDev.paragraph1.9",
    "frontendDev.paragraph1.10",
    "frontendDev.paragraph1.11",
    "frontendDev.paragraph2.title",
    "frontendDev.paragraph2.1",
    "frontendDev.paragraph2.2",
    "frontendDev.paragraph2.3",
    "frontendDev.paragraph2.4",
    "frontendDev.paragraph2.5",
    "frontendDev.paragraph2.6",
    "frontendDev.paragraph2.7",
    "frontendDev.paragraph3.title",
    "frontendDev.paragraph3.1",
    "frontendDev.paragraph3.2",
    "frontendDev.paragraph3.3",
    "frontendDev.paragraph3.4",
    "frontendDev.paragraph3.5",
    "pythonDev.position",
    "pythonDev.description",
    "pythonDev.experience",
    "pythonDev.officeAdress",
    "pythonDev.office",
    "pythonDev.paragraph1.title",
    "pythonDev.paragraph1.1",
    "pythonDev.paragraph1.2",
    "pythonDev.paragraph1.3",
    "pythonDev.paragraph1.4",
    "pythonDev.paragraph1.5",
    "pythonDev.paragraph1.6",
    "pythonDev.paragraph1.7",
    "pythonDev.paragraph1.8",
    "pythonDev.paragraph1.9",
    "pythonDev.paragraph1.10",
    "pythonDev.paragraph1.11",
    "pythonDev.paragraph2.title",
    "pythonDev.paragraph2.1",
    "pythonDev.paragraph2.2",
    "pythonDev.paragraph2.3",
    "pythonDev.paragraph2.4",
    "pythonDev.paragraph2.5",
    "pythonDev.paragraph2.6",
    "pythonDev.paragraph3.title",
    "pythonDev.paragraph3.1",
    "pythonDev.paragraph3.2",
    "pythonDev.paragraph3.3",
    "pythonDev.paragraph3.4"
  }

  /** The same subtrees of `ua.translation`. */
  const UaKeys: set<string> := {
    "frontendDev.position",
    "frontendDev.description",
    "frontendDev.experience",
    "frontendDev.officeAdress",
    "frontendDev.office",
    "frontendDev.paragraph1.title",
    "frontendDev.paragraph1.1",
    "frontendDev.paragraph1.2",
    "frontendDev.paragraph1.3",
    "frontendDev.paragraph1.4",
    "frontendDev.paragraph1.5",
    "frontendDev.paragraph1.6",
    "frontendDev.paragraph1.7",
    "frontendDev.paragraph1.8",
    "frontendDev.paragraph1.9",
    "frontendDev.paragraph1.10",
    "frontendDev.paragraph1.11",
    "frontendDev.paragraph2.title",
    "frontendDev.paragraph2.1",
    "frontendDev.paragraph2.2",
    "frontendDev.paragraph2.3",
    "frontendDev.paragraph2.4",
    "frontendDev.paragraph2.5",
    "frontendDev.paragraph2.6",
    "frontendDev.paragraph2.7",
    "frontendDev.paragraph3.title",
    "frontendDev.paragraph3.1",
    "frontendDev.paragraph3.2",
    "frontendDev.paragraph3.3",
    "frontendDev.paragraph3.4",
    "frontendDev.paragraph3.5",
    "pythonDev.position",
    "pythonDev.description",
    "pythonDev.experience",
    "pythonDev.officeAdress",
    "pythonDev.office",
    "pythonDev.paragraph1.title",
    "pythonDev.paragraph1.1",
    "pythonDev.paragraph1.2",
    "pythonDev.paragraph1.3",
    "pythonDev.paragraph1.4",
    "pythonDev.paragraph1.5",
    "pythonDev.paragraph1.6",
    "pythonDev.paragraph1.7",
    "pythonDev.paragraph1.8",
    "pythonDev.paragraph1.9",
    "pythonDev.paragraph1.10",
    "pythonDev.paragraph1.11",
    "pythonDev.paragraph2.title",
    "pythonDev.paragraph2.1",
    "pythonDev.paragraph2.2",
    "pythonDev.paragraph2.3",
    "pythonDev.paragraph2.4",
    "pythonDev.paragraph2.5",
    "pythonDev.paragraph2.6",
    "pythonDev.paragraph3.title",
    "pythonDev.paragraph3.1",
    "pythonDev.paragraph3.2",
    "pythonDev.paragraph3.3",
    "pythonDev.paragraph3.4"
  }

  /** The table's keys are distinct (an object literal's are) and so are its ids,
      4 and 5, so a `vacancy=<id>` parameter picks out at most one entry. */
  lemma IdsAreUnique()
    ensures KeysUnique(Data) && IdsUnique(Data)
    ensures Data[0].1.id == 4 && Data[1].1.id == 5
  {
  }

  /** Each entry's `buttonData` is its key, so the click handler's
      `data[data-position]` finds the entry the card or row was built from. */
  lemma ButtonDataIsKey()
    ensures forall k :: 0 <= k < |Data| ==> Data[k].1.buttonData == Data[k].0
    ensures forall k :: 0 <= k < |Data| ==> Find(Data, Data[k].1.buttonData) == Some(Data[k].1)
  {
    forall k | 0 <= k < |Data| ensures Find(Data, Data[k].0) == Some(Data[k].1) {
      FindAt(Data, k);
    }
  }

  /** Both entries are open and visible: the strip gets both, as cards 1 and 2, and
      no row of the full list is flagged closed. */
  lemma BothFeatured()
    ensures ActiveVacancies(Data) == [FrontendDev, PythonDev]
    ensures forall k :: 0 <= k < |Data| ==> !RowOf(Data[k].1).closed
  {
    assert Data[..1] == [("FRONTEND_DEV", FrontendDev)];
    assert Data[..1][..0] == [];
  }

  /** `dataHide` has no entries, so the `.link-vak-hide` handler has nothing to look
      up: `dataHide[pos]` finds no entry for any position. */
  lemma HiddenTableEmpty()
    ensures forall key :: Find(DataHide, key).None?
  {
  }

  /** Section `n` of an entry whose keys start with `prefix`: named `paragraphN`,
      titled `<prefix>.paragraphN.title`, with bullets `<prefix>.paragraphN.1`,
      `<prefix>.paragraphN.2`, ... and at least one of them. */
  predicate SectionKeys(prefix: string, n: nat, entry: (string, Section)) {
    && entry.0 == "paragraph" + NatToString(n)
    && entry.1.title == prefix + ".paragraph" + NatToString(n) + ".title"
    && |entry.1.bullets| > 0
    && BulletsNumbered(prefix, n, entry.1.bullets, 0, |entry.1.bullets|)
  }

  /** An entry's keys all live under `prefix` and it has the three sections. */
  predicate EntryKeys(prefix: string, v: Vacancy) {
    && v.position == prefix + ".position"
    && v.description == prefix + ".description"
    && v.experience == prefix + ".experience"
    && v.officeLocation == prefix + ".officeAdress"
    && v.collaborationVariant == prefix + ".office"
    && |v.inside| == 3
    && forall j :: 0 <= j < 3 ==> SectionKeys(prefix, j + 1, v.inside[j])
  }

  /** Bullets `lo` to `hi - 1` are `<prefix>.paragraphN.<lo + 1>` and so on. */
  predicate BulletsNumbered(prefix: string, n: nat, bullets: seq<string>, lo: nat, hi: nat)
    requires hi <= |bullets|
  {
    forall m :: lo <= m < hi ==>
      bullets[m] == prefix + ".paragraph" + NatToString(n) + "." + NatToString(m + 1)
  }

  /** The numerals the bullet keys use. */
  lemma Numerals()
    ensures NatToString(1) == "1" && NatToString(2) == "2" && NatToString(3) == "3"
    ensures NatToString(4) == "4" && NatToString(5) == "5" && NatToString(6) == "6"
    ensures NatToString(7) == "7" && NatToString(8) == "8" && NatToString(9) == "9"
    ensures NatToString(10) == "10" && NatToString(11) == "11"
  {
    assert NatToString(10) == NatToString(1) + [DigitChar(0)];
    assert NatToString(11) == NatToString(1) + [DigitChar(1)];
  }

  lemma FrontendDevBullets1a()
    ensures BulletsNumbered("frontendDev", 1, FrontendDev.inside[0].1.bullets, 0, 4)
  {
    var b := FrontendDev.inside[0].1.bullets;
    Numerals();
    forall m | 0 <= m < 4
      ensures b[m] == "frontendDev" + ".paragraph" + NatToString(1) + "." + NatToString(m + 1)
    {
      if m == 0 {
      } else if m == 1 {
      } else if m == 2 {
      }
    }
  }

  lemma FrontendDevBullets1b()
    ensures BulletsNumbered("frontendDev", 1, FrontendDev.inside[0].1.bullets, 4, 8)
  {
    var b := FrontendDev.inside[0].1.bullets;
    Numerals();
    forall m | 4 <= m < 8
      ensures b[m] == "frontendDev" + ".paragraph" + NatToString(1) + "." + NatToString(m + 1)
    {
      if m == 4 {
      } else if m == 5 {
      } else if m == 6 {
      }
    }
  }

  lemma FrontendDevBullets1c()
    ensures BulletsNumbered("frontendDev", 1, FrontendDev.inside[0].1.bullets, 8, 11)
  {
    var b := FrontendDev.inside[0].1.bullets;
    Numerals();
    forall m | 8 <= m < 11
      ensures b[m] == "frontendDev" + ".paragraph" + NatToString(1) + "." + NatToString(m + 1)
    {
      if m == 8 {
      } else if m == 9 {
      }
    }
  }

  lemma FrontendDevSection1()
    ensures SectionKeys("frontendDev", 1, FrontendDev.inside[0])
  {
    Numerals();
    FrontendDevBullets1a();
    FrontendDevBullets1b();
    FrontendDevBullets1c();
  }

  lemma FrontendDevBullets2a()
    ensures BulletsNumbered("frontendDev", 2, FrontendDev.inside[1].1.bullets, 0, 4)
  {
    var b := FrontendDev.inside[1].1.bullets;
    Numerals();
    forall m | 0 <= m < 4
      ensures b[m] == "frontendDev" + ".paragraph" + NatToString(2) + "." + NatToString(m + 1)
    {
      if m == 0 {
      } else if m == 1 {
      } else if m == 2 {
      }
    }
  }

  lemma FrontendDevBullets2b()
    ensures BulletsNumbered("frontendDev", 2, FrontendDev.inside[1].1.bullets, 4, 7)
  {
    var b := FrontendDev.inside[1].1.bullets;
    Numerals();
    forall m | 4 <= m < 7
      ensures b[m] == "frontendDev" + ".paragraph" + NatToString(2) + "." + NatToString(m + 1)
    {
      if m == 4 {
      } else if m == 5 {
      }
    }
  }

  lemma FrontendDevSection2()
    ensures SectionKeys("frontendDev", 2, FrontendDev.inside[1])
  {
    Numerals();
    FrontendDevBullets2a();
    FrontendDevBullets2b();
  }

  lemma FrontendDevBullets3a()
    ensures BulletsNumbered("frontendDev", 3, FrontendDev.inside[2].1.bullets, 0, 4)
  {
    var b := FrontendDev.inside[2].1.bullets;
    Numerals();
    forall m | 0 <= m < 4
      ensures b[m] == "frontendDev" + ".paragraph" + NatToString(3) + "." + NatToString(m + 1)
    {
      if m == 0 {
      } else if m == 1 {
      } else if m == 2 {
      }
    }
  }

  lemma FrontendDevBullets3b()
    ensures BulletsNumbered("frontendDev", 3, FrontendDev.inside[2].1.bullets, 4, 5)
  {
    var b := FrontendDev.inside[2].1.bullets;
    Numerals();
    forall m | 4 <= m < 5
      ensures b[m] == "frontendDev" + ".paragraph" + NatToString(3) + "." + NatToString(m + 1)
    {
    }
  }

  lemma FrontendDevSection3()
    ensures SectionKeys("frontendDev", 3, FrontendDev.inside[2])
  {
    Numerals();
    FrontendDevBullets3a();
    FrontendDevBullets3b();
  }

  lemma PythonDevBullets1a()
    ensures BulletsNumbered("pythonDev", 1, PythonDev.inside[0].1.bullets, 0, 4)
  {
    var b := PythonDev.inside[0].1.bullets;
    Numerals();
    forall m | 0 <= m < 4
      ensures b[m] == "pythonDev" + ".paragraph" + NatToString(1) + "." + NatToString(m + 1)
    {
      if m == 0 {
      } else if m == 1 {
      } else if m == 2 {
      }
    }
  }

  lemma PythonDevBullets1b()
    ensures BulletsNumbered("pythonDev", 1, PythonDev.inside[0].1.bullets, 4, 8)
  {
    var b := PythonDev.inside[0].1.bullets;
    Numerals();
    forall m | 4 <= m < 8
      ensures b[m] == "pythonDev" + ".paragraph" + NatToString(1) + "." + NatToString(m + 1)
    {
      if m == 4 {
      } else if m == 5 {
      } else if m == 6 {
      }
    }
  }

  lemma PythonDevBullets1c()
    ensures BulletsNumbered("pythonDev", 1, PythonDev.inside[0].1.bullets, 8, 11)
  {
    var b := PythonDev.inside[0].1.bullets;
    Numerals();
    forall m | 8 <= m < 11
      ensures b[m] == "pythonDev" + ".paragraph" + NatToString(1) + "." + NatToString(m + 1)
    {
      if m == 8 {
      } else if m == 9 {
      }
    }
  }

  lemma PythonDevSection1()
    ensures SectionKeys("pythonDev", 1, PythonDev.inside[0])
  {
    Numerals();
    PythonDevBullets1a();
    PythonDevBullets1b();
    PythonDevBullets1c();
  }

  lemma PythonDevBullets2a()
    ensures BulletsNumbered("pythonDev", 2, PythonDev.inside[1].1.bullets, 0, 4)
  {
    var b := PythonDev.inside[1].1.bullets;
    Numerals();
    forall m | 0 <= m < 4
      ensures b[m] == "pythonDev" + ".paragraph" + NatToString(2) + "." + NatToString(m + 1)
    {
      if m == 0 {
      } else if m == 1 {
      } else if m == 2 {
      }
    }
  }

  lemma PythonDevBullets2b()
    ensures BulletsNumbered("pythonDev", 2, PythonDev.inside[1].1.bullets, 4, 6)
  {
    var b := PythonDev.inside[1].1.bullets;
    Numerals();
    forall m | 4 <= m < 6
      ensures b[m] == "pythonDev" + ".paragraph" + NatToString(2) + "." + NatToString(m + 1)
    {
      if m == 4 {
      }
    }
  }

  lemma PythonDevSection2()
    ensures SectionKeys("pythonDev", 2, PythonDev.inside[1])
  {
    Numerals();
    PythonDevBullets2a();
    PythonDevBullets2b();
  }

  lemma PythonDevBullets3a()
    ensures BulletsNumbered("pythonDev", 3, PythonDev.inside[2].1.bullets, 0, 4)
  {
    var b := PythonDev.inside[2].1.bullets;
    Numerals();
    forall m | 0 <= m < 4
      ensures b[m] == "pythonDev" + ".paragraph" + NatToString(3) + "." + NatToString(m + 1)
    {
      if m == 0 {
      } else if m == 1 {
      } else if m == 2 {
      }
    }
  }

  lemma PythonDevSection3()
    ensures SectionKeys("pythonDev", 3, PythonDev.inside[2])
  {
    Numerals();
    PythonDevBullets3a();
  }

  /** Both entries follow the key layout of the translation tables. */
  lemma EntriesFollowKeyLayout()
    ensures EntryKeys("frontendDev", FrontendDev) && EntryKeys("pythonDev", PythonDev)
  {
    FrontendDevKeys();
    PythonDevKeys();
  }

  /** The entry's own text keys. */
  lemma FrontendDevFields()
    ensures FrontendDev.position == "frontendDev" + ".position"
    ensures FrontendDev.description == "frontendDev" + ".description"
    ensures FrontendDev.experience == "frontendDev" + ".experience"
  {
  }

  /** The entry's office keys. */
  lemma FrontendDevOfficeFields()
    ensures FrontendDev.officeLocation == "frontendDev" + ".officeAdress"
    ensures FrontendDev.collaborationVariant == "frontendDev" + ".office"
  {
  }

  lemma FrontendDevKeys()
    ensures EntryKeys("frontendDev", FrontendDev)
  {
    FrontendDevFields();
    FrontendDevOfficeFields();
    FrontendDevSection1();
    FrontendDevSection2();
    FrontendDevSection3();
    forall j | 0 <= j < 3 ensures SectionKeys("frontendDev", j + 1, FrontendDev.inside[j]) {
      if j == 0 {
      } else if j == 1 {
      }
    }
  }

  /** The entry's own text keys. */
  lemma PythonDevFields()
    ensures PythonDev.position == "pythonDev" + ".position"
    ensures PythonDev.description == "pythonDev" + ".description"
    ensures PythonDev.experience == "pythonDev" + ".experience"
  {
  }

  /** The entry's office keys. */
  lemma PythonDevOfficeFields()
    ensures PythonDev.officeLocation == "pythonDev" + ".officeAdress"
    ensures PythonDev.collaborationVariant == "pythonDev" + ".office"
  {
  }

  lemma PythonDevKeys()
    ensures EntryKeys("pythonDev", PythonDev)
  {
    PythonDevFields();
    PythonDevOfficeFields();
    PythonDevSection1();
    PythonDevSection2();
    PythonDevSection3();
    forall j | 0 <= j < 3 ensures SectionKeys("pythonDev", j + 1, PythonDev.inside[j]) {
      if j == 0 {
      } else if j == 1 {
      }
    }
  }

  /** Every `translate-id` an entry puts on the page is one of `keys`. */
  predicate Translatable(v: Vacancy, keys: set<string>) {
    && v.position in keys && v.description in keys && v.experience in keys
    && v.officeLocation in keys && v.collaborationVariant in keys
    && forall j :: 0 <= j < |v.inside| ==> SectionTranslatable(v.inside[j].1, keys)
  }

  predicate SectionTranslatable(s: Section, keys: set<string>) {
    s.title in keys && forall m :: 0 <= m < |s.bullets| ==> s.bullets[m] in keys
  }

  lemma FrontendDevInEn()
    ensures Translatable(FrontendDev, EnKeys)
  {
    assert SectionTranslatable(FrontendDev.inside[0].1, EnKeys);
    assert SectionTranslatable(FrontendDev.inside[1].1, EnKeys);
    assert SectionTranslatable(FrontendDev.inside[2].1, EnKeys);
    forall j | 0 <= j < 3 ensures SectionTranslatable(FrontendDev.inside[j].1, EnKeys) {
      if j == 0 {
      } else if j == 1 {
      }
    }
  }

  lemma FrontendDevInUa()
    ensures Translatable(FrontendDev, UaKeys)
  {
    assert SectionTranslatable(FrontendDev.inside[0].1, UaKeys);
    assert SectionTranslatable(FrontendDev.inside[1].1, UaKeys);
    assert SectionTranslatable(FrontendDev.inside[2].1, UaKeys);
    forall j | 0 <= j < 3 ensures SectionTranslatable(FrontendDev.inside[j].1, UaKeys) {
      if j == 0 {
      } else if j == 1 {
      }
    }
  }

  lemma PythonDevInEn()
    ensures Translatable(PythonDev, EnKeys)
  {
    assert SectionTranslatable(PythonDev.inside[0].1, EnKeys);
    assert SectionTranslatable(PythonDev.inside[1].1, EnKeys);
    assert SectionTranslatable(PythonDev.inside[2].1, EnKeys);
    forall j | 0 <= j < 3 ensures SectionTranslatable(PythonDev.inside[j].1, EnKeys) {
      if j == 0 {
      } else if j == 1 {
      }
    }
  }

  lemma PythonDevInUa()
    ensures Translatable(PythonDev, UaKeys)
  {
    assert SectionTranslatable(PythonDev.inside[0].1, UaKeys);
    assert SectionTranslatable(PythonDev.inside[1].1, UaKeys);
    assert SectionTranslatable(PythonDev.inside[2].1, UaKeys);
    forall j | 0 <= j < 3 ensures SectionTranslatable(PythonDev.inside[j].1, UaKeys) {
      if j == 0 {
      } else if j == 1 {
      }
    }
  }

  /** Every locale key the table uses exists in both languages. */
  lemma LocaleKeysResolve()
    ensures forall k :: 0 <= k < |Data| ==> Translatable(Data[k].1, EnKeys) && Translatable(Data[k].1, UaKeys)
  {
    FrontendDevInEn();
    FrontendDevInUa();
    PythonDevInEn();
    PythonDevInUa();
  }
}
