/** Artifacts as the files that hold them: the frontmatter dumped as YAML, the
    body after it. */
module ArtifactFiles {
  import opened Wrappers
  import opened ArtifactText
  import opened ArtifactStore
  import opened Lifecycle

  /** The YAML library. */
  datatype Yaml = Yaml(dump: Frontmatter -> string, load: string -> Frontmatter)

  /** A dump can be delimited in a file, and loads as what was dumped; the reader
      hands it over with the line break in front instead of behind. */
  ghost predicate RoundTrips(yaml: Yaml) {
    forall fm :: var text := yaml.dump(fm);
      Delimitable(text) && yaml.load("\n" + text[..|text| - 1]) == fm
  }

  function FileOf(yaml: Yaml, fm: Frontmatter, body: string): string {
    Compose(yaml.dump(fm), body)
  }

  function ParseFile(yaml: Yaml, text: string): Result<Artifact, ReadError> {
    match ReadBack(text)
    case Failure(e) => Failure(e)
    case Success(parts) => Success(Artifact(yaml.load(parts.frontmatter), parts.body))
  }

  /** A file that was written parses as the frontmatter it was written with and
      the body as a reader sees it. */
  lemma ParsedAfterWrite(yaml: Yaml, fm: Frontmatter, body: string)
    requires RoundTrips(yaml)
    ensures ParseFile(yaml, FileOf(yaml, fm, body)) == Success(Stored(fm, body))
  {
    ReadAfterWrite(yaml.dump(fm), body);
  }

  /** The files hold exactly the artifacts of `s`. */
  ghost predicate OnDisk(yaml: Yaml, disk: map<Id, string>, s: Store) {
    disk.Keys == s.Keys && forall x :: x in disk ==> ParseFile(yaml, disk[x]) == Success(s[x])
  }

  lemma WriteStaysOnDisk(yaml: Yaml, disk: map<Id, string>, s: Store, id: Id, fm: Frontmatter, body: string)
    requires RoundTrips(yaml) && OnDisk(yaml, disk, s)
    ensures OnDisk(yaml, disk[id := FileOf(yaml, fm, body)], s[id := Stored(fm, body)])
  {
    hide ParseFile, FileOf;
    ParsedAfterWrite(yaml, fm, body);
  }

  /** Whatever is read has been through a reader already. */
  lemma OnDiskIsSettled(yaml: Yaml, disk: map<Id, string>, s: Store)
    requires OnDisk(yaml, disk, s)
    ensures Settled(s)
  {
    forall x | x in s
      ensures Reread(s[x].body) == s[x].body
    {
      var text := Universal(disk[x]);
      UniversalHasNoReturn(disk[x]);
      assert ParseFile(yaml, disk[x]) == Success(s[x]);
      var end := Find(text, "\n---", 3).value;
      LStripBreaksSuffix(text[end + 4..]);
      RereadUnchangedIff(s[x].body);
    }
  }
}
