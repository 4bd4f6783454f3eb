/** The governance-model revision store: an append-only log of bindings kept as files in a directory.

    File names, bindings, the directory read, and the store of a backend without a directory. Serialized
    bindings are opaque contents, and normalizing and validating a configuration is a parameter. */
module GovernanceStore {

  import opened Wrappers
  import Text

  const SCHEMA_VERSION: nat := 3
  const REVISION_PREFIX: string := "revision-"
  const REVISION_SUFFIX: string := ".json"
  const LOCK_FILE: string := ".binding.lock"
  const PENDING_FILE: string := ".revision.pending"

  // ---------------------------------------------------------------- file names

  function RevisionName(revision: nat): string {
    REVISION_PREFIX + Text.Padded(revision, 20) + REVISION_SUFFIX
  }

  function StripPrefix(s: string, prefix: string): Option<string> {
    if prefix <= s then Some(s[|prefix|..]) else None
  }

  function StripSuffix(s: string, suffix: string): Option<string> {
    if |suffix| <= |s| && s[|s| - |suffix|..] == suffix then Some(s[..|s| - |suffix|]) else None
  }

  function ParseRevisionName(name: string): Option<nat> {
    var unprefixed :- StripPrefix(name, REVISION_PREFIX);
    var digits :- StripSuffix(unprefixed, REVISION_SUFFIX);
    if |digits| == 20 && Text.AllDigits(digits) then Text.ParseU64(digits) else None
  }

  lemma TwentyDigits()
    ensures Text.U64_MAX < Text.Pow10(20)
  {
    assert Text.Pow10(4) == 10000;
    assert Text.Pow10(8) == 10000 * Text.Pow10(4);
    assert Text.Pow10(12) == 10000 * Text.Pow10(8);
    assert Text.Pow10(16) == 10000 * Text.Pow10(12);
    assert Text.Pow10(20) == 10000 * Text.Pow10(16);
  }

  lemma StripsTo(name: string, digits: string)
    requires |digits| == 20 && Text.AllDigits(digits)
    ensures name == REVISION_PREFIX + digits + REVISION_SUFFIX ==> ParseRevisionName(name) == Text.ParseU64(digits)
  {
    if name == REVISION_PREFIX + digits + REVISION_SUFFIX {
      var unprefixed := name[|REVISION_PREFIX|..];
      assert unprefixed == digits + REVISION_SUFFIX;
      assert unprefixed[..|unprefixed| - |REVISION_SUFFIX|] == digits;
    }
  }

  lemma NameParses(r: nat)
    requires r <= Text.U64_MAX
    ensures ParseRevisionName(RevisionName(r)) == Some(r)
  {
    TwentyDigits();
    Text.PaddedValue(r, 20);
    StripsTo(RevisionName(r), Text.Padded(r, 20));
    assert Text.Padded(r, 20)[0] != '+';
  }

  lemma ParsedIsName(name: string, r: nat)
    requires ParseRevisionName(name) == Some(r)
    ensures r <= Text.U64_MAX && name == RevisionName(r)
  {
    var unprefixed := name[|REVISION_PREFIX|..];
    var digits := unprefixed[..|unprefixed| - |REVISION_SUFFIX|];
    assert name == REVISION_PREFIX + digits + REVISION_SUFFIX;
    assert digits[0] != '+';
    Text.ValuePadded(digits);
  }

  /** Parsing is the exact inverse of naming, over the whole 64-bit range and nothing else. */
  lemma ParseInvertsName(name: string, r: nat)
    ensures ParseRevisionName(name) == Some(r) <==> r <= Text.U64_MAX && name == RevisionName(r)
  {
    if r <= Text.U64_MAX && name == RevisionName(r) {
      NameParses(r);
    }
    if ParseRevisionName(name) == Some(r) {
      ParsedIsName(name, r);
    }
  }

  // ---------------------------------------------------------------- bindings

  /** The settings of a binding; only `enabled` matters here. */
  datatype Config = Config(enabled: bool, settings: string)

  datatype Binding = Binding(schema: nat, id: string, config: Config, revision: nat)

  datatype Content = LockBytes | Partial | Whole(binding: Binding)

  datatype Failure = Io | InvalidConfig | UnexpectedFile | Malformed | Mismatch | Overflow | Conflict | NotFound
                   | Disabled | NotConfigured

  type Normalize = Config -> Option<Config>

  /** What a stored binding must be for this store. */
  predicate StoredValid(normalize: Normalize, id: string, b: Binding) {
    b.schema == SCHEMA_VERSION && b.id == id && normalize(b.config).Some?
  }

  function BuildBinding(id: string, config: Config, previous: Option<Binding>): Result<Binding, Failure> {
    if previous.None? then Ok(Binding(SCHEMA_VERSION, id, config, 1))
    else if previous.value.revision >= Text.U64_MAX then Err(Overflow)
    else Ok(Binding(SCHEMA_VERSION, id, config, previous.value.revision + 1))
  }

  /** Reading the file of one revision. */
  function ReadRevision(normalize: Normalize, id: string, files: map<string, Content>, revision: nat)
    : Result<Binding, Failure>
  {
    var name := RevisionName(revision);
    if name !in files then Err(NotFound)
    else if !files[name].Whole? then Err(Malformed)
    else
      var b := files[name].binding;
      if !StoredValid(normalize, id, b) || b.revision != revision then Err(Mismatch) else Ok(b)
  }

  predicate Expected(name: string) {
    ParseRevisionName(name).Some? || name == LOCK_FILE || name == PENDING_FILE
  }

  function Revisions(names: set<string>): set<nat> {
    set name | name in names && ParseRevisionName(name).Some? :: ParseRevisionName(name).value
  }

  ghost function Max(s: set<nat>): (m: nat)
    requires s != {}
    ensures m in s && forall x | x in s :: x <= m
  {
    var x :| x in s;
    if s == {x} then x
    else
      var m := Max(s - {x});
      assert forall y | y in s :: y == x || y in s - {x};
      if x <= m then m else x
  }

  /** The newest binding among the listed names; the file itself is read after the listing. */
  ghost function ReadListed(normalize: Normalize, id: string, names: set<string>, files: map<string, Content>):
    Result<Option<Binding>, Failure>
  {
    if exists name :: name in names && !Expected(name) then Err(UnexpectedFile)
    else if Revisions(names) == {} then Ok(None)
    else
      var b :- ReadRevision(normalize, id, files, Max(Revisions(names)));
      Ok(Some(b))
  }

  ghost function ReadLatest(normalize: Normalize, id: string, files: map<string, Content>)
    : Result<Option<Binding>, Failure>
  {
    ReadListed(normalize, id, files.Keys, files)
  }

  function Listed(listing: seq<string>): set<string> {
    set name | name in listing
  }

  lemma RevisionsSnoc(listing: seq<string>, name: string)
    ensures Revisions(Listed(listing + [name])) ==
            Revisions(Listed(listing)) + (if ParseRevisionName(name).Some? then {ParseRevisionName(name).value} else {})
  {
    assert Listed(listing + [name]) == Listed(listing) + {name};
  }

  /** The listing loop: the revisions in listing order, or nothing at an unexpected name. */
  method CollectRevisions(listing: seq<string>) returns (r: Option<seq<nat>>)
    ensures r.None? <==> exists name :: name in listing && !Expected(name)
    ensures r.Some? ==> (set x | x in r.value) == Revisions(Listed(listing))
  {
    var revisions: seq<nat> := [];
    for i := 0 to |listing|
      invariant forall name | name in listing[..i] :: Expected(name)
      invariant (set x | x in revisions) == Revisions(Listed(listing[..i]))
    {
      var parsed := ParseRevisionName(listing[i]);
      assert listing[..i + 1] == listing[..i] + [listing[i]];
      RevisionsSnoc(listing[..i], listing[i]);
      if parsed.Some? {
        revisions := revisions + [parsed.value];
      } else if listing[i] != LOCK_FILE && listing[i] != PENDING_FILE {
        assert listing[i] in listing && !Expected(listing[i]);
        return None;
      }
    }
    assert listing[..|listing|] == listing;
    return Some(revisions);
  }

  /** The last of the revisions once sorted. */
  method Newest(revisions: seq<nat>) returns (newest: nat)
    requires revisions != []
    ensures newest in revisions && forall x | x in revisions :: x <= newest
  {
    newest := revisions[0];
    for i := 1 to |revisions|
      invariant newest in revisions && forall k | 0 <= k < i :: revisions[k] <= newest
    {
      if newest < revisions[i] {
        newest := revisions[i];
      }
    }
  }

  method ReadLatestBinding(normalize: Normalize, id: string, listing: seq<string>, files: map<string, Content>)
    returns (r: Result<Option<Binding>, Failure>)
    ensures r == ReadListed(normalize, id, Listed(listing), files)
  {
    var collected := CollectRevisions(listing);
    if collected.None? {
      var name :| name in listing && !Expected(name);
      assert name in Listed(listing);
      return Err(UnexpectedFile);
    }
    var revisions := collected.value;
    if revisions == [] {
      return Ok(None);
    }
    assert revisions[0] in Revisions(Listed(listing));
    var newest := Newest(revisions);
    assert newest == Max(Revisions(Listed(listing))) by {
      assert newest in Revisions(Listed(listing));
      assert Max(Revisions(Listed(listing))) in (set x | x in revisions);
    }
    var read := ReadRevision(normalize, id, files, newest);
    return if read.Ok? then Ok(Some(read.value)) else Err(read.error);
  }

  /** A revision read for execution: zero is refused, and a disabled binding is not executable. */
  function ExecutionBinding(normalize: Normalize, id: string, files: map<string, Content>, revision: nat)
    : Result<Binding, Failure>
  {
    if revision == 0 then Err(InvalidConfig)
    else
      var b :- ReadRevision(normalize, id, files, revision);
      if b.config.enabled then Ok(b) else Err(Disabled)
  }

  // ---------------------------------------------------------------- files

  datatype Published = Published(call: nat, binding: Binding)

  /** The `r`-th publication is the revision `r`, complete, under its own name. */
  ghost predicate Kept(files: map<string, Content>, id: string, b: Binding, r: nat) {
    && RevisionName(r) in files && files[RevisionName(r)] == Whole(b)
    && b.revision == r && b.schema == SCHEMA_VERSION && b.id == id
  }

  /** The directory holds exactly the revisions 1..n, besides the lock and the pending file. */
  ghost predicate FilesSound(files: map<string, Content>, id: string, log: seq<Published>) {
    && |log| <= Text.U64_MAX
    && (forall i | 0 <= i < |log| :: Kept(files, id, log[i].binding, i + 1))
    && (forall name | name in files ::
          Expected(name) && (ParseRevisionName(name).Some? ==> 1 <= ParseRevisionName(name).value <= |log|))
  }

  lemma NamesApart(r: nat, q: nat)
    requires r <= Text.U64_MAX && q <= Text.U64_MAX
    ensures RevisionName(r) == RevisionName(q) ==> r == q
    ensures RevisionName(r) != LOCK_FILE && RevisionName(r) != PENDING_FILE
    ensures ParseRevisionName(RevisionName(r)) == Some(r)
  {
    ParseInvertsName(RevisionName(r), r);
    ParseInvertsName(RevisionName(r), q);
    assert RevisionName(r)[0] == 'r';
  }

  /** Only the lock and pending files differ. */
  ghost predicate SameRevisions(files: map<string, Content>, files': map<string, Content>) {
    forall name | name != LOCK_FILE && name != PENDING_FILE ::
      (name in files <==> name in files') && (name in files ==> files'[name] == files[name])
  }

  lemma FilesKept(files: map<string, Content>, files': map<string, Content>, id: string, log: seq<Published>)
    requires FilesSound(files, id, log) && SameRevisions(files, files')
    ensures FilesSound(files', id, log)
  {
    forall i | 0 <= i < |log| ensures Kept(files', id, log[i].binding, i + 1) {
      NamesApart(i + 1, i + 1);
      assert Kept(files, id, log[i].binding, i + 1);
    }
    forall name | name in files'
      ensures Expected(name) && (ParseRevisionName(name).Some? ==> 1 <= ParseRevisionName(name).value <= |log|)
    {
      if name == LOCK_FILE || name == PENDING_FILE {
        NotARevision(name);
      }
    }
  }

  lemma NotARevision(name: string)
    requires name == LOCK_FILE || name == PENDING_FILE
    ensures ParseRevisionName(name).None?
  {
    assert name[0] == '.';
  }

  /** A new file under another name leaves a published revision as it is. */
  lemma KeptBeside(files: map<string, Content>, id: string, b: Binding, r: nat, name: string, content: Content)
    requires Kept(files, id, b, r) && name != RevisionName(r) && RevisionName(r) != PENDING_FILE
    ensures Kept((files - {PENDING_FILE})[name := content], id, b, r)
  {
  }

  lemma FilesPublished(files: map<string, Content>, id: string, log: seq<Published>, p: nat, b: Binding)
    requires FilesSound(files, id, log) && b.revision == |log| + 1 <= Text.U64_MAX
    requires b.schema == SCHEMA_VERSION && b.id == id
    ensures FilesSound((files - {PENDING_FILE})[RevisionName(b.revision) := Whole(b)], id, log + [Published(p, b)])
  {
    var name := RevisionName(b.revision);
    var files', log' := (files - {PENDING_FILE})[name := Whole(b)], log + [Published(p, b)];
    NamesApart(b.revision, b.revision);
    forall i | 0 <= i < |log'| ensures Kept(files', id, log'[i].binding, i + 1) {
      if i < |log| {
        NamesApart(i + 1, b.revision);
        KeptBeside(files, id, log[i].binding, i + 1, name, Whole(b));
      }
    }
    assert ParseRevisionName(name) == Some(|log'|);
  }

  /** Exactly the numbers 1..n are published. */
  lemma RevisionsAreExact(files: map<string, Content>, id: string, log: seq<Published>)
    requires FilesSound(files, id, log)
    ensures forall r :: r in Revisions(files.Keys) <==> 1 <= r <= |log|
  {
    forall r | 1 <= r <= |log| ensures r in Revisions(files.Keys) {
      assert Kept(files, id, log[r - 1].binding, r);
      NamesApart(r, r);
    }
  }

  lemma ReadsPublished(normalize: Normalize, id: string, files: map<string, Content>, log: seq<Published>, r: nat)
    requires FilesSound(files, id, log) && 1 <= r <= |log|
    ensures var b := log[r - 1].binding;
      ReadRevision(normalize, id, files, r) == if normalize(b.config).Some? then Ok(b) else Err(Mismatch)
  {
    assert Kept(files, id, log[r - 1].binding, r);
  }

  /** The latest binding is the last one published. */
  lemma LatestIsLast(normalize: Normalize, id: string, files: map<string, Content>, log: seq<Published>)
    requires FilesSound(files, id, log)
    ensures ReadLatest(normalize, id, files) ==
            if log == [] then Ok(None)
            else if normalize(log[|log| - 1].binding.config).Some? then Ok(Some(log[|log| - 1].binding))
            else Err(Mismatch)
  {
    RevisionsAreExact(files, id, log);
    if log != [] {
      assert |log| in Revisions(files.Keys);
      assert Max(Revisions(files.Keys)) == |log|;
      ReadsPublished(normalize, id, files, log, |log|);
    }
  }

  // ---------------------------------------------------------------- without a directory

  /** The store of a backend without a data path: revisions live in memory. */
  class EphemeralStore {
    const id: string
    var state: Option<Binding>
    var revisions: map<nat, Binding>

    ghost predicate Valid()
      reads this
    {
      && (forall r :: r in revisions <==> 1 <= r <= |revisions|)
      && (forall r | r in revisions ::
            revisions[r].revision == r && revisions[r].schema == SCHEMA_VERSION && revisions[r].id == id)
      && |revisions| <= Text.U64_MAX
      && state == if |revisions| == 0 then None else Some(revisions[|revisions|])
    }

    constructor (id: string)
      ensures Valid() && this.id == id && revisions == map[]
    {
      this.id, state, revisions := id, None, map[];
    }

    /** Publishes the next revision, or changes nothing. */
    method Update(normalize: Normalize, config: Config) returns (r: Result<Binding, Failure>)
      requires Valid()
      modifies this
      ensures Valid()
      ensures r.Ok? <==> normalize(config).Some? && |old(revisions)| < Text.U64_MAX
      ensures r.Ok? ==> state == Some(r.value) && r.value.config == normalize(config).value &&
                        revisions == old(revisions)[|old(revisions)| + 1 := r.value]
      ensures r.Err? ==> unchanged(this)
    {
      var normalized := normalize(config);
      if normalized.None? {
        return Err(InvalidConfig);
      }
      var built := BuildBinding(id, normalized.value, state);
      if built.Err? {
        return built;
      }
      var n := |revisions|;
      assert built.value.revision == n + 1;
      assert n + 1 !in revisions;
      revisions := revisions[n + 1 := built.value];
      state := Some(built.value);
      return built;
    }

    /** Finds every published revision, and nothing else. */
    method BindingForRevision(revision: nat) returns (r: Result<Binding, Failure>)
      requires Valid()
      ensures r.Ok? <==> 1 <= revision <= |revisions| && revisions[revision].config.enabled
      ensures r.Ok? ==> r.value == revisions[revision] && r.value.revision == revision
      ensures revision > |revisions| ==> r == Err(NotFound)
    {
      if revision == 0 {
        return Err(InvalidConfig);
      }
      if revision !in revisions {
        return Err(NotFound);
      }
      var b := revisions[revision];
      return if b.config.enabled then Ok(b) else Err(Disabled);
    }
  }
}
