/** The item catalogue, the downloadable-files configuration and the files
    directory, as managed by `/admin/add-item`, `/admin/remove-item` and
    `/admin/add-subject`.  File contents are not modelled: the directory is
    the set of relative paths that exist in it. */
module Catalog {
  import opened Common
  import opened Naming

  datatype Item = Item(title: string, desc: string, price: real, subject: string, filename: Option<string>)

  /** One entry of the files configuration: the file's path relative to the
      server directory. */
  datatype FileEntry = FileEntry(file: string)

  /** Item title to downloadable file. */
  type FilesConfig = map<string, FileEntry>

  /** The relative paths that exist on disk, such as `files/notes.pdf`. */
  type Disk = set<string>

  /** Subject key to display name. */
  type Subjects = map<string, string>

  /** Uploaded files are stored under the `files/` directory. */
  function FilePath(filename: string): string {
    "files/" + filename
  }

  // ------------------------------------------------------------ add-subject

  /** `/admin/add-subject`: the code is normalised into a key whose display
      name is `code - name`; any earlier subject under that key is replaced. */
  function AddSubject(subjects: Subjects, code: string, name: string): (r: Subjects)
    requires IsAscii(code)
    ensures r.Keys == subjects.Keys + {SubjectKey(code)}
    ensures r[SubjectKey(code)] == code + " - " + name
    ensures forall k :: k in subjects && k != SubjectKey(code) ==> r[k] == subjects[k]
  {
    subjects[SubjectKey(code):= code + " - " + name]
  }

  /** Adding a subject whose code differs only in case or spacing replaces the
      earlier one rather than adding a second key. */
  lemma AddSubjectSameKey(subjects: Subjects, code1: string, code2: string, name1: string, name2: string)
    requires IsAscii(code1) && IsAscii(code2)
    requires SubjectKey(code1) == SubjectKey(code2)
    ensures AddSubject(AddSubject(subjects, code1, name1), code2, name2).Keys
            == AddSubject(subjects, code1, name1).Keys
    ensures AddSubject(AddSubject(subjects, code1, name1), code2, name2)
            == AddSubject(subjects, code2, name2)
  {
  }

  // --------------------------------------------------------------- add-item

  datatype Catalogue = Catalogue(items: seq<Item>, config: FilesConfig, subjects: Subjects, disk: Disk)

  /** The part of an add-item request that describes an optional new subject. */
  datatype NewSubject = NewSubject(code: string, name: string)

  /** `/admin/add-item`: an optional new subject is registered, the item is
      appended, and an uploaded file (stored under its normalised name) becomes
      the download for the item's title. */
  function AddItem(c: Catalogue, title: string, desc: string, price: real, subject: string,
                   newSubject: NewSubject, upload: Option<string>): (r: Catalogue)
    requires Truthy(newSubject.code) && Truthy(newSubject.name) ==> IsAscii(newSubject.code)
    requires upload.Some? ==> IsAscii(upload.value)
    ensures |r.items| == |c.items| + 1 && r.items[..|c.items|] == c.items
    ensures upload.None? ==>
              && r.items[|c.items|] == Item(title, desc, price, subject, None)
              && r.config == c.config && r.disk == c.disk
    ensures upload.Some? ==>
              var name := UploadName(upload.value);
              && r.items[|c.items|] == Item(title, desc, price, subject, Some(name))
              && r.config == c.config[title := FileEntry(FilePath(name))]
              && r.disk == c.disk + {FilePath(name)}
    ensures Truthy(newSubject.code) && Truthy(newSubject.name) ==>
              r.subjects == AddSubject(c.subjects, newSubject.code, newSubject.name)
    ensures !(Truthy(newSubject.code) && Truthy(newSubject.name)) ==> r.subjects == c.subjects
  {
    var subjects :=
      if Truthy(newSubject.code) && Truthy(newSubject.name)
      then AddSubject(c.subjects, newSubject.code, newSubject.name)
      else c.subjects;
    var filename := if upload.Some? then Some(UploadName(upload.value)) else None;
    var items := c.items + [Item(title, desc, price, subject, filename)];
    match filename
    case None => Catalogue(items, c.config, subjects, c.disk)
    case Some(name) =>
      Catalogue(items, c.config[title := FileEntry(FilePath(name))], subjects, c.disk + {FilePath(name)})
  }

  // ------------------------------------------------------------ remove-item

  datatype Removal = Removal(items: seq<Item>, config: FilesConfig, disk: Disk, fileDeleted: bool)

  predicate FileInUse(items: seq<Item>, filename: string) {
    exists i :: 0 <= i < |items| && items[i].filename == Some(filename)
  }

  /** `splice(index, 1)` on an in-range index: the other items keep their
      order, and together with the removed one they are the original items. */
  function SpliceOut(items: seq<Item>, index: nat): (r: seq<Item>)
    requires index < |items|
    ensures |r| == |items| - 1
    ensures forall j :: 0 <= j < index ==> r[j] == items[j]
    ensures forall j :: index <= j < |r| ==> r[j] == items[j + 1]
    ensures multiset(r) + multiset{items[index]} == multiset(items)
  {
    assert items == items[..index] + [items[index]] + items[index + 1..];
    items[..index] + items[index + 1..]
  }

  /** Where `splice(index, 1)` starts: a negative index counts back from
      the end, and one before the start is clamped to 0. */
  function SpliceStart(length: nat, index: int): (start: nat)
    requires index < 0
    ensures length > 0 ==> start < length
    ensures start == 0 || start == length + index
  {
    if length + index < 0 then 0 else length + index
  }

  /** `/admin/remove-item/:index`, with the index `parseInt` produced.  An
      in-range index splices that item out; if it named a file, its title's
      download entry is removed, and the file itself is deleted only when no
      remaining item names it.  Past the end nothing changes.  A negative
      index reads no item (so nothing is cleaned up) but still splices one
      out, counting from the end. */
  function RemoveItem(items: seq<Item>, config: FilesConfig, disk: Disk, index: int): (r: Removal)
    ensures 0 <= index < |items| ==> r.items == SpliceOut(items, index)
    ensures 0 <= index < |items| && TruthyName(items[index].filename) ==>
              r.config.Keys == config.Keys - {items[index].title}
              && forall k :: k in r.config ==> r.config[k] == config[k]
    ensures 0 <= index < |items| && !TruthyName(items[index].filename) ==> r.config == config
    ensures 0 <= index < |items| ==>
              (r.fileDeleted <==>
                 TruthyName(items[index].filename)
                 && !FileInUse(r.items, items[index].filename.value)
                 && FilePath(items[index].filename.value) in disk)
    ensures 0 <= index < |items| && r.fileDeleted ==> r.disk == disk - {FilePath(items[index].filename.value)}
    ensures !r.fileDeleted ==> r.disk == disk
    ensures index >= |items| ==> r == Removal(items, config, disk, false)
    ensures index < 0 ==> r.config == config && r.disk == disk && !r.fileDeleted
    ensures index < 0 && items != [] ==> r.items == SpliceOut(items, SpliceStart(|items|, index))
    ensures index < 0 && items == [] ==> r.items == []
  {
    if index >= |items| then Removal(items, config, disk, false)
    else if index < 0 then
      if items == [] then Removal(items, config, disk, false)
      else Removal(SpliceOut(items, SpliceStart(|items|, index)), config, disk, false)
    else
      var removed := items[index];
      var rest := SpliceOut(items, index);
      if !TruthyName(removed.filename) then
        Removal(rest, config, disk, false)
      else
        var name := removed.filename.value;
        var config' := config - {removed.title};
        if !FileInUse(rest, name) && FilePath(name) in disk then
          Removal(rest, config', disk - {FilePath(name)}, true)
        else
          Removal(rest, config', disk, false)
  }

  /** Removing the item that was just added restores the item list, and also
      the files configuration and the files directory when the title had no
      download and the uploaded file was new and used by no other item. */
  lemma AddThenRemove(c: Catalogue, title: string, desc: string, price: real, subject: string,
                      newSubject: NewSubject, upload: Option<string>)
    requires Truthy(newSubject.code) && Truthy(newSubject.name) ==> IsAscii(newSubject.code)
    requires upload.Some? ==> IsAscii(upload.value)
    requires upload.Some? ==> UploadName(upload.value) != []
    requires upload.Some? ==> title !in c.config
    requires upload.Some? ==> FilePath(UploadName(upload.value)) !in c.disk
    requires upload.Some? ==> !FileInUse(c.items, UploadName(upload.value))
    ensures var added := AddItem(c, title, desc, price, subject, newSubject, upload);
            var r := RemoveItem(added.items, added.config, added.disk, |c.items|);
            && r.items == c.items
            && r.config == c.config
            && r.disk == c.disk
            && r.fileDeleted == upload.Some?
  {
  }
}
