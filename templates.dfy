/**
 * The template store (models/template_manager.py): for the current
 * collection ("Clients" or "Colleagues"), an insertion-ordered dictionary
 * from category name to its list of templates, changed in place by guarded
 * operations that report success and save the collection after each change.
 */
module Templates {
  import opened Wrappers
  import opened Deployment
  import Settings

  // The two collections, named as the store names them.
  const Clients := "Клиенты"
  const Colleagues := "Коллеги"

  /** One canned text: `{"title": ..., "text": ...}`. */
  datatype Template = Template(title: string, text: string)

  /**
   * A Python dict from category name to templates: `order` is the key order
   * the dict remembers, `entries` the key-value pairs.
   */
  datatype Catalog = Catalog(order: seq<string>, entries: map<string, seq<Template>>)

  predicate Distinct(s: seq<string>) {
    forall i, j | 0 <= i < j < |s| :: s[i] != s[j]
  }

  /** Each key appears once in the order, and the order lists exactly the keys. */
  ghost predicate WellFormed(c: Catalog) {
    Distinct(c.order) && forall k :: k in c.order <==> k in c.entries
  }

  /**
   * What load_templates finds: no file; a file that cannot be read or is not
   * valid JSON (the `JSONDecodeError` and `IOError` that are caught); a file
   * whose bytes are not UTF-8 (a `UnicodeDecodeError`, which is not caught
   * and propagates); or a decoded dict.
   */
  datatype StoredFile = Missing | Corrupt | NotUtf8 | Loaded(catalog: Catalog)

  /** One save_templates: the file written and what was written to it. */
  datatype Save = Save(file: Path, catalog: Catalog)

  /** `self.files`: the JSON file of each collection inside the data directory. */
  function CategoryFiles(appDataDir: Path): (files: map<string, Path>)
    ensures files.Keys == {Clients, Colleagues}
    ensures files[Clients] != files[Colleagues]
    ensures forall t | t in files :: |files[t]| == |appDataDir| + 1 && files[t][..|appDataDir|] == appDataDir
  {
    map[Clients := Join(appDataDir, "templates_clients.json"),
        Colleagues := Join(appDataDir, "templates_colleagues.json")]
  }

  /** The store and the settings agree on the collections and their files. */
  lemma CategoryFilesAgree(appData: Path, categoryType: string)
    ensures var files := CategoryFiles(Settings.AppDataDir(appData));
            && (categoryType in files <==> categoryType in Settings.CategoryTypes())
            && (categoryType in files ==> Settings.FilePath(appData, categoryType) == Some(files[categoryType]))
  {
  }

  /** The demo content _create_default_templates writes for a collection. */
  function DefaultCatalog(categoryType: string): (c: Catalog)
    ensures WellFormed(c)
    ensures categoryType == Clients ==> c.order == ["Приветствие", "Прощание"]
    ensures categoryType != Clients ==> c.order == ["Общение"]
    ensures forall k | k in c.entries :: |c.entries[k]| == 1
  {
    if categoryType == Clients then
      Catalog(["Приветствие", "Прощание"],
              map["Приветствие" := [Template("Стандартное приветствие", "Здравствуйте! Чем могу помочь?")],
                  "Прощание" := [Template("Стандартное прощание", "Всего доброго! Обращайтесь еще!")]])
    else
      Catalog(["Общение"], map["Общение" := [Template("Привет", "Привет! Как дела?")]])
  }

  /** The key order after `del d[x]`: `x` taken out, the others kept in order. */
  function Without(s: seq<string>, x: string): (r: seq<string>)
    ensures forall y :: y in r <==> y in s && y != x
    ensures x !in s ==> r == s
    ensures Distinct(s) ==> Distinct(r)
  {
    if s == [] then []
    else if s[0] == x then Without(s[1..], x)
    else
      var rest := Without(s[1..], x);
      var r := [s[0]] + rest;
      assert Distinct(s) ==> Distinct(r) by {
        if Distinct(s) {
          assert Distinct(s[1..]);
          assert s[0] !in s[1..];
          forall i, j | 0 <= i < j < |r| ensures r[i] != r[j] {
            if i == 0 {
              assert r[j] in rest;
            } else {
              assert r[i] == rest[i - 1] && r[j] == rest[j - 1];
            }
          }
        }
      }
      r
  }

  /** Removing a key that occurs once closes the gap it leaves: the keys before and after it stay in order. */
  lemma {:induction false} WithoutAt(s: seq<string>, i: nat)
    requires i < |s| && s[i] !in s[..i] && s[i] !in s[i + 1..]
    ensures Without(s, s[i]) == s[..i] + s[i + 1..]
  {
    var x, tail := s[i], s[1..];
    if i == 0 {
      assert tail == s[i + 1..];
      assert Without(s, x) == Without(tail, x) == tail;
      assert s[..0] + tail == tail;
    } else {
      assert s[0] != x by {
        assert s[..i][0] == s[0];
      }
      assert Without(s, x) == [s[0]] + Without(tail, x);
      assert x !in tail[..i - 1] by {
        assert tail[..i - 1] == s[1..i];
        assert forall y | y in s[1..i] :: y in s[..i];
      }
      assert tail[i - 1] == x && tail[i..] == s[i + 1..];
      WithoutAt(tail, i - 1);
      assert s[..i] + s[i + 1..] == [s[0]] + (tail[..i - 1] + tail[i..]) by {
        assert s[..i] == [s[0]] + tail[..i - 1];
      }
    }
  }

  /** Removing the key that was appended last gives back the order before it. */
  lemma {:induction false} WithoutAppended(s: seq<string>, x: string)
    requires x !in s
    ensures Without(s + [x], x) == s
  {
    if s == [] {
      assert Without([x], x) == Without([x][1..], x);
      assert [x][1..] == [];
    } else {
      assert (s + [x])[0] == s[0] != x;
      assert (s + [x])[1..] == s[1..] + [x];
      WithoutAppended(s[1..], x);
      assert Without(s + [x], x) == [s[0]] + s[1..];
    }
  }

  /** Deleting a category right after adding it gives back the dictionary it was added to. */
  lemma AddThenDeleteCategory(order: seq<string>, entries: map<string, seq<Template>>, name: string)
    requires WellFormed(Catalog(order, entries)) && name !in entries
    ensures Without(order + [name], name) == order
    ensures entries[name := []] - {name} == entries
  {
    assert name !in order;
    WithoutAppended(order, name);
  }

  /** Renaming a category and renaming it back restores every list; the category moves to the end. */
  lemma RenameBack(order: seq<string>, entries: map<string, seq<Template>>, oldName: string, newName: string)
    requires oldName in entries && newName !in entries && newName !in order
    ensures var order', entries' := Without(order, oldName) + [newName], (entries - {oldName})[newName := entries[oldName]];
            && Without(order', newName) + [oldName] == Without(order, oldName) + [oldName]
            && (entries' - {newName})[oldName := entries'[newName]] == entries
  {
    var rest, others := Without(order, oldName), entries - {oldName};
    assert newName !in rest;
    WithoutAppended(rest, newName);
    var entries' := others[newName := entries[oldName]];
    assert entries' - {newName} == others;
    assert others[oldName := entries[oldName]] == entries;
  }

  class TemplateManager {
    /** `self.app_data_dir`: %APPDATA%/Helper. */
    const appDataDir: Path
    /** `self.files`. */
    const files: map<string, Path>
    /** `self.current_category_type`. */
    var currentCategoryType: string
    /** The keys of `self.categories`, in the order the dict keeps them. */
    var order: seq<string>
    /** The key-value pairs of `self.categories`. */
    var entries: map<string, seq<Template>>
    /** Every save_templates so far, oldest first. */
    var saved: seq<Save>

    ghost predicate Valid()
      reads this
    {
      && WellFormed(Catalog(order, entries))
      && files == CategoryFiles(appDataDir)
      && currentCategoryType in files
    }

    /** The dictionary as it would be saved. */
    function Categories(): Catalog
      reads this
    {
      Catalog(order, entries)
    }

    /** get_current_filename. */
    function CurrentFile(): (f: Path)
      reads this
      requires Valid()
      ensures |f| == |appDataDir| + 1 && f[..|appDataDir|] == appDataDir
      ensures currentCategoryType == Clients ==> f != files[Colleagues]
      ensures currentCategoryType == Colleagues ==> f != files[Clients]
    {
      files[currentCategoryType]
    }

    /**
     * `TemplateManager()` when it returns: the Clients collection, loaded from
     * its file; `stored` is what that file holds. Create covers the file whose
     * reading raises.
     */
    constructor (appData: Path, stored: StoredFile)
      requires stored.Loaded? ==> WellFormed(stored.catalog)
      requires !stored.NotUtf8?
      ensures Valid()
      ensures appDataDir == Join(appData, "Helper") && currentCategoryType == Clients
      ensures stored.Loaded? ==> Categories() == stored.catalog && saved == []
      ensures !stored.Loaded? ==> Categories() == DefaultCatalog(Clients) && saved == [Save(CurrentFile(), Categories())]
    {
      appDataDir := Join(appData, "Helper");
      files := CategoryFiles(Join(appData, "Helper"));
      currentCategoryType := Clients;
      order, entries := [], map[];
      saved := [];
      new;
      var _ := LoadTemplates(stored);
    }

    /**
     * `TemplateManager()` as a call that may raise: no store at all when the
     * Clients file is not UTF-8, otherwise a new store as the constructor builds it.
     */
    static method Create(appData: Path, stored: StoredFile) returns (m: TemplateManager?)
      requires stored.Loaded? ==> WellFormed(stored.catalog)
      ensures m == null <==> stored.NotUtf8?
      ensures m != null ==> fresh(m) && m.Valid() && m.currentCategoryType == Clients
      ensures m != null && stored.Loaded? ==> m.Categories() == stored.catalog && m.saved == []
      ensures m != null && !stored.Loaded?
              ==> m.Categories() == DefaultCatalog(Clients) && m.saved == [Save(m.CurrentFile(), m.Categories())]
    {
      if stored.NotUtf8? {
        m := null;
      } else {
        m := new TemplateManager(appData, stored);
      }
    }

    /**
     * load_templates: the file's dictionary, or the demo content (saved) when
     * there is none or it does not decode; `raised` when reading raises out of it.
     */
    method LoadTemplates(stored: StoredFile) returns (raised: bool)
      requires Valid()
      requires stored.Loaded? ==> WellFormed(stored.catalog)
      modifies this`order, this`entries, this`saved
      ensures Valid()
      ensures raised <==> stored.NotUtf8?
      ensures raised ==> Categories() == old(Categories()) && saved == old(saved)
      ensures stored.Loaded? ==> Categories() == stored.catalog && saved == old(saved)
      ensures stored.Missing? || stored.Corrupt?
              ==> Categories() == DefaultCatalog(currentCategoryType)
                  && saved == old(saved) + [Save(CurrentFile(), Categories())]
    {
      raised := false;
      match stored {
        case Loaded(c) =>
          order, entries := c.order, c.entries;
        case NotUtf8 =>
          raised := true;
        case _ =>
          CreateDefaultTemplates();
      }
    }

    /** _create_default_templates: the demo content of the current collection, saved. */
    method CreateDefaultTemplates()
      requires Valid()
      modifies this`order, this`entries, this`saved
      ensures Valid()
      ensures Categories() == DefaultCatalog(currentCategoryType)
      ensures saved == old(saved) + [Save(CurrentFile(), Categories())]
    {
      var c := DefaultCatalog(currentCategoryType);
      order, entries := c.order, c.entries;
      SaveTemplates();
    }

    /** save_templates, as an event: the current dictionary written to the current file. */
    method SaveTemplates()
      requires Valid()
      modifies this`saved
      ensures saved == old(saved) + [Save(CurrentFile(), Categories())]
    {
      saved := saved + [Save(files[currentCategoryType], Catalog(order, entries))];
    }

    /**
     * set_category_type: switches to a known collection and loads it; other
     * names are ignored. `raised` when loading raises, after the switch.
     */
    method SetCategoryType(categoryType: string, stored: StoredFile) returns (raised: bool)
      requires Valid()
      requires stored.Loaded? ==> WellFormed(stored.catalog)
      modifies this
      ensures Valid()
      ensures raised <==> categoryType in files && stored.NotUtf8?
      ensures categoryType !in files ==> currentCategoryType == old(currentCategoryType)
                                         && Categories() == old(Categories()) && saved == old(saved)
      ensures categoryType in files ==> currentCategoryType == categoryType
      ensures raised ==> Categories() == old(Categories()) && saved == old(saved)
      ensures categoryType in files && stored.Loaded? ==> Categories() == stored.catalog && saved == old(saved)
      ensures categoryType in files && (stored.Missing? || stored.Corrupt?)
              ==> Categories() == DefaultCatalog(categoryType) && saved == old(saved) + [Save(CurrentFile(), Categories())]
    {
      raised := false;
      if categoryType in files {
        currentCategoryType := categoryType;
        raised := LoadTemplates(stored);
      }
    }

    /** get_category_types: the collections, in the order `self.files` lists them. */
    function GetCategoryTypes(): (types: seq<string>)
      reads this
      requires Valid()
      ensures types == Settings.CategoryTypes()
      ensures forall t :: t in types <==> t in files
    {
      [Clients, Colleagues]
    }

    /** get_categories: every category once, in insertion order. */
    function GetCategories(): (names: seq<string>)
      reads this
      requires Valid()
      ensures names == order
      ensures Distinct(names)
      ensures forall k :: k in names <==> k in entries
    {
      order
    }

    /** get_templates: the category's templates, or none for an unknown category. */
    function GetTemplates(category: string): (ts: seq<Template>)
      reads this
      ensures category in entries ==> ts == entries[category]
      ensures category !in entries ==> ts == []
    {
      if category in entries then entries[category] else []
    }

    /** add_category: a new, empty category at the end; fails on an empty or taken name. */
    method AddCategory(name: string) returns (ok: bool)
      requires Valid()
      modifies this`order, this`entries, this`saved
      ensures Valid()
      ensures ok <==> name != "" && name !in old(entries)
      ensures ok ==> order == old(order) + [name] && entries == old(entries)[name := []]
                     && saved == old(saved) + [Save(CurrentFile(), Categories())]
      ensures !ok ==> Categories() == old(Categories()) && saved == old(saved)
    {
      if name != "" && name !in entries {
        entries := entries[name := []];
        order := order + [name];
        SaveTemplates();
        return true;
      }
      return false;
    }

    /**
     * rename_category: the old category's list under the new name, which moves
     * to the end; fails unless the old name exists and the new one is non-empty and free.
     */
    method RenameCategory(oldName: string, newName: string) returns (ok: bool)
      requires Valid()
      modifies this`order, this`entries, this`saved
      ensures Valid()
      ensures ok <==> oldName in old(entries) && newName != "" && newName !in old(entries)
      ensures ok ==> order == Without(old(order), oldName) + [newName]
                     && entries == (old(entries) - {oldName})[newName := old(entries)[oldName]]
                     && saved == old(saved) + [Save(CurrentFile(), Categories())]
      ensures !ok ==> Categories() == old(Categories()) && saved == old(saved)
    {
      if oldName in entries && newName != "" && newName !in entries {
        var templates := entries[oldName];
        entries := entries - {oldName};
        order := Without(order, oldName);
        entries := entries[newName := templates];
        order := order + [newName];
        SaveTemplates();
        return true;
      }
      return false;
    }

    /** delete_category: removes exactly that category; fails, changing nothing, when it is absent. */
    method DeleteCategory(name: string) returns (ok: bool)
      requires Valid()
      modifies this`order, this`entries, this`saved
      ensures Valid()
      ensures ok <==> name in old(entries)
      ensures ok ==> order == Without(old(order), name) && entries == old(entries) - {name}
                     && saved == old(saved) + [Save(CurrentFile(), Categories())]
      ensures !ok ==> Categories() == old(Categories()) && saved == old(saved)
    {
      if name in entries {
        entries := entries - {name};
        order := Without(order, name);
        SaveTemplates();
        return true;
      }
      return false;
    }

    /** add_template: appends a template to an existing category. */
    method AddTemplate(category: string, title: string, text: string) returns (ok: bool)
      requires Valid()
      modifies this`entries, this`saved
      ensures Valid()
      ensures ok <==> category in old(entries)
      ensures ok ==> entries == old(entries)[category := old(entries)[category] + [Template(title, text)]]
                     && saved == old(saved) + [Save(CurrentFile(), Categories())]
      ensures !ok ==> entries == old(entries) && saved == old(saved)
    {
      if category in entries {
        entries := entries[category := entries[category] + [Template(title, text)]];
        SaveTemplates();
        return true;
      }
      return false;
    }

    /** edit_template: replaces the template at `index` of an existing category. */
    method EditTemplate(category: string, index: int, title: string, text: string) returns (ok: bool)
      requires Valid()
      modifies this`entries, this`saved
      ensures Valid()
      ensures ok <==> category in old(entries) && 0 <= index < |old(entries)[category]|
      ensures ok ==> entries == old(entries)[category := old(entries)[category][index := Template(title, text)]]
                     && saved == old(saved) + [Save(CurrentFile(), Categories())]
      ensures !ok ==> entries == old(entries) && saved == old(saved)
    {
      if category in entries && 0 <= index < |entries[category]| {
        entries := entries[category := entries[category][index := Template(title, text)]];
        SaveTemplates();
        return true;
      }
      return false;
    }

    /** delete_template: removes the template at `index`; the later ones move down by one. */
    method DeleteTemplate(category: string, index: int) returns (ok: bool)
      requires Valid()
      modifies this`entries, this`saved
      ensures Valid()
      ensures ok <==> category in old(entries) && 0 <= index < |old(entries)[category]|
      ensures ok ==> entries == old(entries)[category := old(entries)[category][..index] + old(entries)[category][index + 1..]]
                     && saved == old(saved) + [Save(CurrentFile(), Categories())]
      ensures !ok ==> entries == old(entries) && saved == old(saved)
    {
      if category in entries && 0 <= index < |entries[category]| {
        var templates := entries[category];
        entries := entries[category := templates[..index] + templates[index + 1..]];
        SaveTemplates();
        return true;
      }
      return false;
    }
  }
}
