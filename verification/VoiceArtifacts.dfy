/**
 Persisting a completed response as one set of new files. Any write may fail before it takes effect,
 any unlink of the rollback may fail, and other processes may add files in between.
 */
module VoiceArtifacts {
  import opened Wrappers
  import opened Digests
  import opened VoiceCollector
  import Utf8
  import Wav

  // ----- File names -----

  predicate NameChar(c: char) {
    'A' <= c <= 'Z' || 'a' <= c <= 'z' || '0' <= c <= '9' || EdgeChar(c)
  }

  /** Characters a name may hold but not begin with. */
  predicate EdgeChar(c: char) {
    c == '.' || c == '_' || c == '-'
  }

  predicate NameText(s: string) {
    forall i :: 0 <= i < |s| ==> NameChar(s[i])
  }

  /** Every run of other characters becomes one underscore; `inRun` is set within such a run. */
  function Squeeze(s: string, inRun: bool): (r: string)
    ensures NameText(r)
  {
    if s == "" then ""
    else if NameChar(s[0]) then [s[0]] + Squeeze(s[1..], false)
    else (if inRun then "" else "_") + Squeeze(s[1..], true)
  }

  function StripLeft(s: string): (r: string)
    ensures r != "" ==> !EdgeChar(r[0])
    ensures NameText(s) ==> NameText(r)
  {
    if s != "" && EdgeChar(s[0]) then StripLeft(s[1..]) else s
  }

  function StripRight(s: string): (r: string)
    ensures r <= s && (NameText(s) ==> NameText(r))
  {
    if s != "" && EdgeChar(s[|s| - 1]) then StripRight(s[..|s| - 1]) else s
  }

  /** _safe_file_component */
  function SafeComponent(value: string): string {
    var cleaned := StripRight(StripLeft(Squeeze(value, false)));
    var name := if cleaned == "" then "unknown" else cleaned;
    if |name| <= 120 then name else name[..120]
  }

  /** Whatever the id, the component stays inside the directory and cannot be hidden or an option. */
  lemma {:induction false} SafeComponentSafe(value: string)
    ensures var name := SafeComponent(value);
            && 1 <= |name| <= 120 && name[0] != '.' && name[0] != '_' && name[0] != '-'
            && forall i :: 0 <= i < |name| ==>
                 || 'A' <= name[i] <= 'Z' || 'a' <= name[i] <= 'z' || '0' <= name[i] <= '9'
                 || name[i] == '.' || name[i] == '_' || name[i] == '-'
  {
    var cleaned := StripRight(StripLeft(Squeeze(value, false)));
    if cleaned == "" {
      assert NameText("unknown");
    }
  }

  /** Neither inside a text of safe characters nor at its end is anything squeezed. */
  lemma {:induction false} SqueezeKeeps(s: string, inRun: bool)
    requires NameText(s)
    ensures Squeeze(s, inRun) == s
  {
    if s != "" {
      SqueezeKeeps(s[1..], false);
    }
  }

  lemma {:induction false} SqueezeJunk(junk: string, b: string)
    requires forall i :: 0 <= i < |junk| ==> !NameChar(junk[i])
    requires b == "" || NameChar(b[0])
    ensures Squeeze(junk + b, true) == Squeeze(b, false)
  {
    if junk == "" {
      assert junk + b == b;
    } else {
      SqueezeJunk(junk[1..], b);
      assert (junk + b)[1..] == junk[1..] + b;
    }
  }

  /** Safe characters stay, and a whole run of others becomes one underscore. */
  lemma {:induction false} SqueezeRun(a: string, junk: string, b: string, inRun: bool)
    requires NameText(a) && junk != "" && forall i :: 0 <= i < |junk| ==> !NameChar(junk[i])
    requires (b == "" || NameChar(b[0])) && (a == "" ==> !inRun)
    ensures Squeeze(a + (junk + b), inRun) == a + ("_" + Squeeze(b, false))
  {
    if a == "" {
      assert a + (junk + b) == junk + b;
      assert (junk + b)[1..] == junk[1..] + b;
      SqueezeJunk(junk[1..], b);
    } else {
      SqueezeRun(a[1..], junk, b, false);
      assert (a + (junk + b))[1..] == a[1..] + (junk + b);
    }
  }

  ghost predicate Edges(s: string) {
    forall i :: 0 <= i < |s| ==> EdgeChar(s[i])
  }

  /** Begins and ends with a letter or a digit, of the safe characters. */
  ghost predicate Core(s: string) {
    s != "" && !EdgeChar(s[0]) && !EdgeChar(s[|s| - 1])
  }

  lemma {:induction false} StripLeftIs(pre: string, rest: string)
    requires Edges(pre) && (rest == "" || !EdgeChar(rest[0]))
    ensures StripLeft(pre + rest) == rest
  {
    if pre == "" {
      assert pre + rest == rest;
    } else {
      StripLeftIs(pre[1..], rest);
      assert (pre + rest)[1..] == pre[1..] + rest;
    }
  }

  lemma {:induction false} StripRightIs(rest: string, post: string)
    requires Edges(post) && (rest == "" || !EdgeChar(rest[|rest| - 1]))
    ensures StripRight(rest + post) == rest
  {
    if post == "" {
      assert rest + post == rest;
    } else {
      StripRightIs(rest, post[..|post| - 1]);
      assert (rest + post)[..|rest + post| - 1] == rest + post[..|post| - 1];
    }
  }

  /** The component is what is left of the squeezed id without its edges, cut at 120 characters. */
  lemma {:induction false} SafeComponentIs(value: string, pre: string, core: string, post: string)
    requires Squeeze(value, false) == pre + (core + post) && Edges(pre) && Edges(post)
    requires core == "" || Core(core)
    ensures SafeComponent(value)
         == if core == "" then "unknown" else if |core| <= 120 then core else core[..120]
  {
    if core == "" {
      assert pre + (core + post) == (pre + post) + "";
      StripLeftIs(pre + post, "");
    } else {
      StripLeftIs(pre, core + post);
      StripRightIs(core, post);
    }
  }

  /** An id that is already safe and short names its files. */
  lemma {:induction false} SafeIdKept(id: string)
    requires NameText(id) && Core(id) && |id| <= 120
    ensures SafeComponent(id) == id
  {
    SqueezeKeeps(id, false);
    assert id == "" + (id + "");
    SafeComponentIs(id, "", id, "");
  }

  function WavName(id: string): string {
    "response_" + SafeComponent(id) + ".wav"
  }

  function TextName(id: string): string {
    "response_" + SafeComponent(id) + ".txt"
  }

  function ManifestName(id: string): string {
    "response_" + SafeComponent(id) + ".manifest.json"
  }

  /** The component between a fixed beginning and the ending of its kind. */
  ghost predicate Named(name: string, id: string, ending: string) {
    && |name| == 9 + |SafeComponent(id)| + |ending| && name[..9] == "response_"
    && name[9..|name| - |ending|] == SafeComponent(id) && name[|name| - |ending|..] == ending
  }

  lemma {:induction false} NamesSpell(id: string)
    ensures Named(WavName(id), id, ".wav") && Named(TextName(id), id, ".txt")
    ensures Named(ManifestName(id), id, ".manifest.json")
  {
  }

  lemma {:induction false} NamesDiffer(id: string)
    ensures WavName(id) != TextName(id) && WavName(id) != ManifestName(id) && TextName(id) != ManifestName(id)
  {
    var n := |"response_" + SafeComponent(id)|;
    assert WavName(id)[n + 1] == 'w';
    assert TextName(id)[n + 1] == 't';
    assert ManifestName(id)[n + 1] == 'm';
  }

  // ----- The manifest -----

  datatype Listed = Listed(filename: string, digest: string)

  datatype Manifest = Manifest(
    responseId: string, status: Option<string>, sampleRate: nat, pcmBytes: nat, pcmDigest: string,
    audioDoneSeen: bool, wav: Option<Listed>, characters: nat, utf8Bytes: nat, textDigest: string,
    text: Option<Listed>, eventTypes: seq<string>)

  datatype Choice = Choice(audio: bool, text: bool)

  function ManifestOf(sha: HashFunction, r: Response, choice: Choice, wav: Bytes): Manifest {
    var text := Utf8.Encode(r.transcript);
    Manifest(
      r.responseId, r.status, r.sampleRate, |r.pcmAudio|, Urn(sha(r.pcmAudio)), r.audioDoneSeen,
      if choice.audio then Some(Listed(WavName(r.responseId), Urn(sha(wav)))) else None,
      |r.transcript|, |text|, Urn(sha(text)),
      if choice.text then Some(Listed(TextName(r.responseId), Urn(sha(text)))) else None,
      r.eventTypes)
  }

  // ----- The directory -----

  type Files = map<string, Bytes>

  predicate Holds(files: Files, name: string, data: Bytes) {
    name in files && files[name] == data
  }

  /** A moment: the files present, and those of them that this run did not write. */
  datatype Snapshot = Snapshot(files: Files, foreign: Files)

  /**
   A directory with what is still to happen to it: what other processes add before each write, and
   whether each write and each unlink takes effect. When a script ends nothing is added and the
   operation works. `moments` are the states passed through since the directory was opened.
   */
  datatype Disk = Disk(
    files: Files, foreign: Files, others: seq<Files>, writes: seq<bool>, unlinks: seq<bool>, moments: seq<Snapshot>)

  function Now(d: Disk): Snapshot {
    Snapshot(d.files, d.foreign)
  }

  function Works(script: seq<bool>): bool {
    script == [] || script[0]
  }

  function Rest<T>(script: seq<T>): seq<T> {
    if script == [] then [] else script[1..]
  }

  /** Other processes add files; they do not touch those present. */
  function Interfered(d: Disk): Disk {
    var more := if d.others == [] then map[] else d.others[0];
    d.(files := more + d.files, foreign := (more - d.files.Keys) + d.foreign, others := Rest(d.others))
  }

  function Marked(d: Disk): Disk {
    d.(moments := d.moments + [Now(d)])
  }

  /** _atomic_write as one step: a name already taken is refused, and a failure leaves no file. */
  function TryWrite(d: Disk, name: string, data: Bytes): (Disk, bool) {
    var e := Marked(Interfered(d));
    if name in e.files || !Works(e.writes) then (e.(writes := Rest(e.writes)), false)
    else (Marked(e.(files := e.files[name := data], writes := Rest(e.writes))), true)
  }

  function TryUnlink(d: Disk, name: string): Disk {
    Marked(d.(files := if Works(d.unlinks) then d.files - {name} else d.files, unlinks := Rest(d.unlinks)))
  }

  class OutputDirectory {
    var files: Files
    var others: seq<Files>
    var writes: seq<bool>
    var unlinks: seq<bool>
    ghost var foreign: Files
    ghost var moments: seq<Snapshot>

    ghost function View(): Disk
      reads this
    {
      Disk(files, foreign, others, writes, unlinks, moments)
    }

    method Interfere()
      modifies this
      ensures View() == Interfered(old(View()))
    {
      var more := if others == [] then map[] else others[0];
      others := if others == [] then [] else others[1..];
      foreign := (more - files.Keys) + foreign;
      files := more + files;
    }

    method AtomicWrite(name: string, data: Bytes) returns (written: bool)
      modifies this
      ensures (View(), written) == TryWrite(old(View()), name, data)
    {
      Interfere();
      moments := moments + [Snapshot(files, foreign)];
      var works := writes == [] || writes[0];
      writes := if writes == [] then [] else writes[1..];
      written := name !in files && works;
      if written {
        files := files[name := data];
        moments := moments + [Snapshot(files, foreign)];
      }
    }

    method Unlink(name: string)
      modifies this
      ensures View() == TryUnlink(old(View()), name)
    {
      if unlinks == [] || unlinks[0] {
        files := files - {name};
      }
      unlinks := if unlinks == [] then [] else unlinks[1..];
      moments := moments + [Snapshot(files, foreign)];
    }
  }

  // ----- Persisting a response -----

  datatype Place = Usable | SymbolicLink | NotDirectory | Uncreatable

  datatype Failure = NothingChosen | BadDirectory | Exists | NoWav(error: Wav.WavError) | WriteFailed

  datatype Paths = Paths(wav: Option<string>, text: Option<string>, manifest: string)

  /** How far the writes have come: the directory, the files created, and whether one failed. */
  datatype Progress = Progress(disk: Disk, created: seq<string>, failed: bool)

  function Write(p: Progress, wanted: bool, name: string, data: Bytes): Progress {
    if !wanted || p.failed then p
    else
      var (disk, written) := TryWrite(p.disk, name, data);
      Progress(disk, if written then p.created + [name] else p.created, !written)
  }

  /** The three writes in order; the first failure ends them. */
  function Writes(d: Disk, r: Response, choice: Choice, wav: Bytes, manifest: Bytes): Progress {
    var audio := Write(Progress(d, [], false), choice.audio, WavName(r.responseId), wav);
    var text := Write(audio, choice.text, TextName(r.responseId), Utf8.Encode(r.transcript));
    Write(text, true, ManifestName(r.responseId), manifest)
  }

  /** The rollback: the first `k` files created, last first, each unlink on its own. */
  function RolledBack(d: Disk, created: seq<string>, k: nat): Disk
    requires k <= |created|
    decreases k
  {
    if k == 0 then d else RolledBack(TryUnlink(d, created[k - 1]), created, k - 1)
  }

  function WroteAll(d: Disk, r: Response, choice: Choice, wav: Bytes, manifest: Bytes): (Disk, bool) {
    var p := Writes(d, r, choice, wav, manifest);
    if p.failed then (RolledBack(p.disk, p.created, |p.created|), false) else (p.disk, true)
  }

  /** The audio file's bytes, when one is asked for. */
  function WavOf(r: Response, choice: Choice): Result<Bytes, Wav.WavError> {
    if choice.audio then Wav.Create(r.pcmAudio, r.sampleRate) else Ok([])
  }

  /** The names a run asks for. */
  predicate Requested(r: Response, choice: Choice, name: string) {
    || (choice.audio && name == WavName(r.responseId))
    || (choice.text && name == TextName(r.responseId))
    || name == ManifestName(r.responseId)
  }

  predicate Taken(files: Files, r: Response, choice: Choice) {
    || (choice.audio && WavName(r.responseId) in files)
    || (choice.text && TextName(r.responseId) in files)
    || ManifestName(r.responseId) in files
  }

  /** A run begins: every file present is foreign to it. */
  function Opened(d: Disk): Disk {
    d.(foreign := d.files, moments := [])
  }

  function Persisted(
    sha: HashFunction, render: Manifest -> Bytes, d: Disk, place: Place, r: Response, choice: Choice)
    : (Disk, Result<Paths, Failure>)
  {
    if !choice.audio && !choice.text then (Opened(d), Err(NothingChosen))
    else if place != Usable then (Opened(d), Err(BadDirectory))
    else if Taken(d.files, r, choice) then (Opened(d), Err(Exists))
    else
      match WavOf(r, choice)
      case Err(error) => (Opened(d), Err(NoWav(error)))
      case Ok(wav) =>
        var (e, written) := WroteAll(Opened(d), r, choice, wav, render(ManifestOf(sha, r, choice, wav)));
        if !written then (e, Err(WriteFailed))
        else
          (e, Ok(Paths(
            if choice.audio then Some(WavName(r.responseId)) else None,
            if choice.text then Some(TextName(r.responseId)) else None,
            ManifestName(r.responseId))))
  }

  // ----- The run itself -----

  method RollBack(dir: OutputDirectory, created: seq<string>)
    modifies dir
    ensures dir.View() == RolledBack(old(dir.View()), created, |created|)
  {
    var k := |created|;
    while k > 0
      invariant 0 <= k <= |created|
      invariant RolledBack(dir.View(), created, k) == RolledBack(old(dir.View()), created, |created|)
    {
      k := k - 1;
      dir.Unlink(created[k]);
    }
  }

  method WriteOne(dir: OutputDirectory, wanted: bool, name: string, data: Bytes, created: seq<string>, failed: bool)
    returns (createdNow: seq<string>, failedNow: bool)
    modifies dir
    ensures Progress(dir.View(), createdNow, failedNow)
         == Write(Progress(old(dir.View()), created, failed), wanted, name, data)
  {
    createdNow, failedNow := created, failed;
    if wanted && !failed {
      var written := dir.AtomicWrite(name, data);
      if written {
        createdNow := created + [name];
      }
      failedNow := !written;
    }
  }

  method WriteAll(dir: OutputDirectory, r: Response, choice: Choice, wav: Bytes, manifest: Bytes)
    returns (written: bool)
    modifies dir
    ensures (dir.View(), written) == WroteAll(old(dir.View()), r, choice, wav, manifest)
  {
    var created, failed := WriteOne(dir, choice.audio, WavName(r.responseId), wav, [], false);
    created, failed :=
      WriteOne(dir, choice.text, TextName(r.responseId), Utf8.Encode(r.transcript), created, failed);
    created, failed := WriteOne(dir, true, ManifestName(r.responseId), manifest, created, failed);
    if failed {
      RollBack(dir, created);
    }
    return !failed;
  }

  // ----- What holds at every moment -----

  /** Foreign files are untouched. */
  ghost predicate Kept(s: Snapshot) {
    forall name :: name in s.foreign ==> Holds(s.files, name, s.foreign[name])
  }

  /** A file of this run. */
  ghost predicate Ours(s: Snapshot, name: string) {
    name in s.files && name !in s.foreign
  }

  /** Every foreign file was there at the start, or another process added it with that content. */
  ghost predicate Explained(start: Files, others: seq<Files>, foreign: Files) {
    forall name :: name in foreign ==>
      Holds(start, name, foreign[name]) || exists i :: 0 <= i < |others| && Holds(others[i], name, foreign[name])
  }

  ghost predicate Extends(files: Files, start: Files) {
    forall name :: name in start ==> Holds(files, name, start[name])
  }

  ghost predicate Present(sha: HashFunction, s: Snapshot, listed: Option<Listed>) {
    listed.Some? ==>
      Ours(s, listed.value.filename) && Urn(sha(s.files[listed.value.filename])) == listed.value.digest
  }

  /** If this run's manifest is there, so is every file it names, with the digest it records. */
  ghost predicate ManifestHolds(sha: HashFunction, s: Snapshot, m: Manifest) {
    Ours(s, ManifestName(m.responseId)) ==> Present(sha, s, m.wav) && Present(sha, s, m.text)
  }

  /** What a run started on `start` with that script of others must satisfy at each moment. */
  ghost predicate Safe(sha: HashFunction, m: Manifest, start: Files, others: seq<Files>, s: Snapshot) {
    && Kept(s) && ManifestHolds(sha, s, m)
    && Extends(s.foreign, start) && Explained(start, others, s.foreign)
  }

  ghost predicate AllSafe(sha: HashFunction, m: Manifest, start: Files, others: seq<Files>, moments: seq<Snapshot>) {
    forall k :: 0 <= k < |moments| ==> Safe(sha, m, start, others, moments[k])
  }

  /** Others only added files, each of them new. */
  ghost predicate Grown(s: Snapshot, t: Snapshot) {
    && (forall name :: name in s.foreign ==> Holds(t.foreign, name, s.foreign[name]))
    && (forall name :: Ours(s, name) ==> Ours(t, name) && t.files[name] == s.files[name])
    && (forall name :: Ours(t, name) ==> Ours(s, name))
  }

  lemma {:induction false} InterferedGrown(d: Disk)
    requires Kept(Now(d))
    ensures Kept(Now(Interfered(d))) && Grown(Now(d), Now(Interfered(d)))
  {
  }

  lemma {:induction false} InterferedExplained(d: Disk, start: Files, others: seq<Files>)
    requires Explained(start, others, d.foreign) && Remaining(d.others, others)
    ensures Explained(start, others, Interfered(d).foreign) && Remaining(Interfered(d).others, others)
  {
    var e := Interfered(d);
    forall name | name in e.foreign && name !in d.foreign
      ensures exists i :: 0 <= i < |others| && Holds(others[i], name, e.foreign[name])
    {
      assert others[|others| - |d.others|] == d.others[0];
    }
  }

  /** A script not yet used up is the end of the whole one. */
  ghost predicate Remaining<T(!new)>(rest: seq<T>, whole: seq<T>) {
    |rest| <= |whole| && rest == whole[|whole| - |rest|..]
  }

  lemma {:induction false} GrownSafe(sha: HashFunction, m: Manifest, s: Snapshot, t: Snapshot)
    requires ManifestHolds(sha, s, m) && Grown(s, t)
    ensures ManifestHolds(sha, t, m)
  {
    assert Ours(t, ManifestName(m.responseId)) ==> Ours(s, ManifestName(m.responseId));
  }

  /** A file may be added when it is not the manifest, or when the files the manifest names are there. */
  lemma {:induction false} WrittenHolds(sha: HashFunction, m: Manifest, s: Snapshot, name: string, data: Bytes)
    requires ManifestHolds(sha, s, m) && name !in s.files && Kept(s)
    requires name == ManifestName(m.responseId) ==> Present(sha, s, m.wav) && Present(sha, s, m.text)
    ensures ManifestHolds(sha, Snapshot(s.files[name := data], s.foreign), m)
    ensures Kept(Snapshot(s.files[name := data], s.foreign))
  {
    var t := Snapshot(s.files[name := data], s.foreign);
    assert forall n :: Ours(s, n) ==> Ours(t, n) && t.files[n] == s.files[n];
    assert Ours(t, ManifestName(m.responseId)) ==> Present(sha, s, m.wav) && Present(sha, s, m.text);
  }

  /** The run's files are exactly those listed. */
  ghost predicate Created(s: Snapshot, names: seq<string>) {
    forall n :: Ours(s, n) <==> n in names
  }

  ghost predicate Distinct(names: seq<string>) {
    forall i, j :: 0 <= i < j < |names| ==> names[i] != names[j]
  }

  /** The writes so far went as they should, whether or not the last one worked. */
  ghost predicate Sound(sha: HashFunction, m: Manifest, start: Files, others: seq<Files>, p: Progress) {
    && Safe(sha, m, start, others, Now(p.disk)) && AllSafe(sha, m, start, others, p.disk.moments)
    && Remaining(p.disk.others, others)
    && Created(Now(p.disk), p.created) && Distinct(p.created)
  }

  lemma {:induction false} MarkedSafe(
    sha: HashFunction, m: Manifest, start: Files, others: seq<Files>, d: Disk)
    requires Safe(sha, m, start, others, Now(d)) && AllSafe(sha, m, start, others, d.moments)
    ensures AllSafe(sha, m, start, others, Marked(d).moments) && Now(Marked(d)) == Now(d)
  {
  }

  lemma {:induction false} InterferedSound(
    sha: HashFunction, m: Manifest, start: Files, others: seq<Files>, p: Progress)
    requires Sound(sha, m, start, others, p)
    ensures Sound(sha, m, start, others, p.(disk := Marked(Interfered(p.disk))))
    ensures Grown(Now(p.disk), Now(Interfered(p.disk)))
  {
    var d := Interfered(p.disk);
    InterferedGrown(p.disk);
    InterferedExplained(p.disk, start, others);
    GrownSafe(sha, m, Now(p.disk), Now(d));
    MarkedSafe(sha, m, start, others, d);
  }

  /** One write keeps everything sound, and what the run had created stays as it was. */
  lemma {:induction false} WriteSound(
    sha: HashFunction, m: Manifest, start: Files, others: seq<Files>, p: Progress,
    wanted: bool, name: string, data: Bytes)
    requires Sound(sha, m, start, others, p)
    requires name == ManifestName(m.responseId) && !p.failed ==>
               Present(sha, Now(p.disk), m.wav) && Present(sha, Now(p.disk), m.text)
    ensures var q := Write(p, wanted, name, data);
            && Sound(sha, m, start, others, q)
            && (forall n, x :: n in p.created && Holds(p.disk.files, n, x) ==> Holds(q.disk.files, n, x))
            && (if wanted && !p.failed && !q.failed
                then q.created == p.created + [name] && Holds(q.disk.files, name, data)
                else q.created == p.created)
  {
    if wanted && !p.failed {
      var e := Marked(Interfered(p.disk));
      InterferedSound(sha, m, start, others, p);
      if name !in e.files && Works(e.writes) {
        WrittenHolds(sha, m, Now(e), name, data);
        WrittenSound(sha, m, start, others, Progress(e, p.created, false), name, data);
      }
    }
  }

  lemma {:induction false} WrittenSound(
    sha: HashFunction, m: Manifest, start: Files, others: seq<Files>, p: Progress, name: string, data: Bytes)
    requires Sound(sha, m, start, others, p) && name !in p.disk.files
    requires ManifestHolds(sha, Snapshot(p.disk.files[name := data], p.disk.foreign), m)
    ensures var disk := p.disk.(files := p.disk.files[name := data], writes := Rest(p.disk.writes));
            Sound(sha, m, start, others, Progress(Marked(disk), p.created + [name], false))
  {
    var disk := p.disk.(files := p.disk.files[name := data], writes := Rest(p.disk.writes));
    assert name !in p.created;
    assert Kept(Now(disk)) && Safe(sha, m, start, others, Now(disk));
    MarkedSafe(sha, m, start, others, disk);
  }

  // ----- The rollback -----

  lemma {:induction false} UnlinkSafe(
    sha: HashFunction, m: Manifest, start: Files, others: seq<Files>, d: Disk, name: string)
    requires Safe(sha, m, start, others, Now(d)) && AllSafe(sha, m, start, others, d.moments)
    requires name !in d.foreign && !Ours(Now(d), ManifestName(m.responseId))
    ensures var e := TryUnlink(d, name);
            && Safe(sha, m, start, others, Now(e)) && AllSafe(sha, m, start, others, e.moments)
            && !Ours(Now(e), ManifestName(m.responseId)) && e.foreign == d.foreign
  {
  }

  /** Every moment of a rollback is safe, whichever unlinks work. */
  lemma {:induction false} RollBackSafe(
    sha: HashFunction, m: Manifest, start: Files, others: seq<Files>, d: Disk, created: seq<string>, k: nat)
    requires Safe(sha, m, start, others, Now(d)) && AllSafe(sha, m, start, others, d.moments)
    requires k <= |created| && (forall j :: 0 <= j < k ==> created[j] !in d.foreign)
    requires !Ours(Now(d), ManifestName(m.responseId))
    ensures var e := RolledBack(d, created, k);
            && Safe(sha, m, start, others, Now(e)) && AllSafe(sha, m, start, others, e.moments)
            && !Ours(Now(e), ManifestName(m.responseId)) && e.foreign == d.foreign
    decreases k
  {
    if k > 0 {
      UnlinkSafe(sha, m, start, others, d, created[k - 1]);
      RollBackSafe(sha, m, start, others, TryUnlink(d, created[k - 1]), created, k - 1);
    }
  }

  lemma {:induction false} UnlinkRemoves(d: Disk, name: string)
    requires false !in d.unlinks && Kept(Now(d)) && name !in d.foreign
    ensures var e := TryUnlink(d, name);
            && Kept(Now(e)) && false !in e.unlinks && e.foreign == d.foreign
            && forall n :: Ours(Now(e), n) <==> Ours(Now(d), n) && n != name
  {
  }

  /** When every unlink works, nothing of the run remains. */
  lemma {:induction false} RollBackClears(d: Disk, created: seq<string>, k: nat)
    requires k <= |created| && false !in d.unlinks && Kept(Now(d))
    requires Distinct(created) && Created(Now(d), created[..k])
    ensures RolledBack(d, created, k).files == d.foreign
    decreases k
  {
    if k == 0 {
      forall name | name in d.files ensures name in d.foreign {
        assert !Ours(Now(d), name);
      }
      assert d.files == d.foreign;
    } else {
      var e := TryUnlink(d, created[k - 1]);
      assert created[..k] == created[..k - 1] + [created[k - 1]];
      assert created[k - 1] in created[..k] && created[k - 1] !in created[..k - 1];
      assert created[k - 1] !in d.foreign by { assert Ours(Now(d), created[k - 1]); }
      UnlinkRemoves(d, created[k - 1]);
      assert forall n :: n in created[..k] <==> n in created[..k - 1] || n == created[k - 1];
      RollBackClears(e, created, k - 1);
    }
  }

  // ----- The whole run -----

  function DataNames(r: Response, choice: Choice): seq<string> {
    (if choice.audio then [WavName(r.responseId)] else []) + if choice.text then [TextName(r.responseId)] else []
  }

  /** The set is complete: each file asked for holds its data, and the run wrote nothing else. */
  ghost predicate Complete(s: Snapshot, r: Response, choice: Choice, wav: Bytes, manifest: Bytes) {
    && Created(s, DataNames(r, choice) + [ManifestName(r.responseId)])
    && Holds(s.files, ManifestName(r.responseId), manifest)
    && (choice.audio ==> Holds(s.files, WavName(r.responseId), wav))
    && (choice.text ==> Holds(s.files, TextName(r.responseId), Utf8.Encode(r.transcript)))
  }

  /** After the data files: what is created, and that a failure left the manifest out. */
  lemma {:induction false} DataSound(
    sha: HashFunction, start: Files, others: seq<Files>, p: Progress, r: Response, choice: Choice, wav: Bytes)
    requires p.created == [] && !p.failed && Sound(sha, ManifestOf(sha, r, choice, wav), start, others, p)
    ensures var audio := Write(p, choice.audio, WavName(r.responseId), wav);
            var text := Write(audio, choice.text, TextName(r.responseId), Utf8.Encode(r.transcript));
            && Sound(sha, ManifestOf(sha, r, choice, wav), start, others, text)
            && ManifestName(r.responseId) !in text.created
            && (!text.failed ==>
                && text.created == DataNames(r, choice)
                && (choice.audio ==> Holds(text.disk.files, WavName(r.responseId), wav))
                && (choice.text ==> Holds(text.disk.files, TextName(r.responseId), Utf8.Encode(r.transcript))))
  {
    var m := ManifestOf(sha, r, choice, wav);
    var audio := Write(p, choice.audio, WavName(r.responseId), wav);
    NamesDiffer(r.responseId);
    WriteSound(sha, m, start, others, p, choice.audio, WavName(r.responseId), wav);
    WriteSound(sha, m, start, others, audio, choice.text, TextName(r.responseId), Utf8.Encode(r.transcript));
  }

  lemma {:induction false} WritesSound(
    sha: HashFunction, start: Files, others: seq<Files>, d: Disk, r: Response, choice: Choice, wav: Bytes,
    manifest: Bytes)
    requires Sound(sha, ManifestOf(sha, r, choice, wav), start, others, Progress(d, [], false))
    ensures var p := Writes(d, r, choice, wav, manifest);
            && Sound(sha, ManifestOf(sha, r, choice, wav), start, others, p)
            && (p.failed ==> ManifestName(r.responseId) !in p.created)
            && (!p.failed ==> Complete(Now(p.disk), r, choice, wav, manifest))
  {
    var m := ManifestOf(sha, r, choice, wav);
    var p := Progress(d, [], false);
    DataSound(sha, start, others, p, r, choice, wav);
    var audio := Write(p, choice.audio, WavName(r.responseId), wav);
    var text := Write(audio, choice.text, TextName(r.responseId), Utf8.Encode(r.transcript));
    if !text.failed {
      forall name | name in text.created ensures Ours(Now(text.disk), name) {}
    }
    WriteSound(sha, m, start, others, text, true, ManifestName(r.responseId), manifest);
  }

  lemma {:induction false} BeginSound(sha: HashFunction, m: Manifest, d: Disk)
    ensures Sound(sha, m, d.files, d.others, Progress(Opened(d), [], false))
  {
  }

  /** The writes with their rollback: safe throughout, complete or cleared. */
  lemma {:induction false} WroteAllSound(
    sha: HashFunction, d: Disk, r: Response, choice: Choice, wav: Bytes, manifest: Bytes)
    ensures var m := ManifestOf(sha, r, choice, wav);
            var (e, written) := WroteAll(Opened(d), r, choice, wav, manifest);
            && Safe(sha, m, d.files, d.others, Now(e)) && AllSafe(sha, m, d.files, d.others, e.moments)
            && (written ==> Complete(Now(e), r, choice, wav, manifest))
            && (!written ==> !Ours(Now(e), ManifestName(r.responseId)))
            && (!written && false !in d.unlinks ==> e.files == e.foreign)
  {
    var m := ManifestOf(sha, r, choice, wav);
    var p := Writes(Opened(d), r, choice, wav, manifest);
    BeginSound(sha, m, d);
    WritesSound(sha, d.files, d.others, Opened(d), r, choice, wav, manifest);
    WritesKeepUnlinks(Opened(d), r, choice, wav, manifest);
    if p.failed {
      assert p.created[..|p.created|] == p.created;
      forall j | 0 <= j < |p.created| ensures p.created[j] !in p.disk.foreign {
        assert Ours(Now(p.disk), p.created[j]);
      }
      RollBackSafe(sha, m, d.files, d.others, p.disk, p.created, |p.created|);
      if false !in d.unlinks {
        RollBackClears(p.disk, p.created, |p.created|);
      }
    }
  }

  lemma {:induction false} WritesKeepUnlinks(d: Disk, r: Response, choice: Choice, wav: Bytes, manifest: Bytes)
    ensures Writes(d, r, choice, wav, manifest).disk.unlinks == d.unlinks
  {
  }

  /**
   At every moment of a run: files present at its start are unchanged, files of others are unchanged
   and really theirs, and this run's manifest comes with every file it names and the digest it
   records. The moments and the outcome are those of the method.
   */
  lemma {:induction false} PersistSafe(
    sha: HashFunction, render: Manifest -> Bytes, d: Disk, place: Place, r: Response, choice: Choice)
    requires WavOf(r, choice).Ok?
    ensures var m := ManifestOf(sha, r, choice, WavOf(r, choice).value);
            var (e, result) := Persisted(sha, render, d, place, r, choice);
            AllSafe(sha, m, d.files, d.others, e.moments + [Now(e)])
  {
    var wav := WavOf(r, choice).value;
    var m := ManifestOf(sha, r, choice, wav);
    WroteAllSound(sha, d, r, choice, wav, render(m));
    BeginSound(sha, m, d);
  }

  /** Which refusal a run meets before it writes anything; a name already taken is refused. */
  lemma {:induction false} PersistRefuses(
    sha: HashFunction, render: Manifest -> Bytes, d: Disk, place: Place, r: Response, choice: Choice)
    ensures var (e, result) := Persisted(sha, render, d, place, r, choice);
            && (result == Err(Exists) <==>
                && (choice.audio || choice.text) && place == Usable
                && exists name :: Requested(r, choice, name) && name in d.files)
            && (result.Err? && result != Err(WriteFailed) ==> e.files == d.files && e.moments == [])
            && (result.Ok? || result == Err(WriteFailed) ==>
                && (choice.audio || choice.text) && place == Usable && WavOf(r, choice).Ok?
                && forall name :: Requested(r, choice, name) ==> name !in d.files)
  {
    assert Taken(d.files, r, choice) <==> exists name :: Requested(r, choice, name) && name in d.files by {
      assert Requested(r, choice, ManifestName(r.responseId));
      assert choice.audio ==> Requested(r, choice, WavName(r.responseId));
      assert choice.text ==> Requested(r, choice, TextName(r.responseId));
    }
  }

  lemma {:induction false} NoneAdded(start: Files, foreign: Files)
    requires Extends(foreign, start) && Explained(start, [], foreign)
    ensures foreign == start
  {
    assert forall name :: name in foreign ==> Holds(start, name, foreign[name]);
  }

  /** A run that reaches its writes and fails is the writes with their rollback. */
  lemma {:induction false} FailedWrites(
    sha: HashFunction, render: Manifest -> Bytes, d: Disk, place: Place, r: Response, choice: Choice)
    requires Persisted(sha, render, d, place, r, choice).1 == Err(WriteFailed)
    ensures WavOf(r, choice).Ok?
    ensures var wav := WavOf(r, choice).value;
            WroteAll(Opened(d), r, choice, wav, render(ManifestOf(sha, r, choice, wav)))
            == (Persisted(sha, render, d, place, r, choice).0, false)
  {
  }

  ghost predicate Cleared(d: Disk, e: Disk) {
    && (false !in d.unlinks ==> e.files == e.foreign && Explained(d.files, d.others, e.files))
    && (false !in d.unlinks && d.others == [] ==> e.files == d.files)
  }

  lemma {:induction false} FailedCleared(
    d: Disk, r: Response, choice: Choice, wav: Bytes, manifest: Bytes, sha: HashFunction)
    requires !WroteAll(Opened(d), r, choice, wav, manifest).1
    ensures var e := WroteAll(Opened(d), r, choice, wav, manifest).0;
            Cleared(d, e) && !Ours(Now(e), ManifestName(r.responseId))
  {
    WroteAllSound(sha, d, r, choice, wav, manifest);
    var e := WroteAll(Opened(d), r, choice, wav, manifest).0;
    if d.others == [] {
      NoneAdded(d.files, e.foreign);
    }
  }

  /**
   A failing run leaves no manifest and, when its unlinks work, only the files of others; when no
   other process wrote, exactly the files there were.
   */
  lemma {:induction false} PersistFails(
    sha: HashFunction, render: Manifest -> Bytes, d: Disk, place: Place, r: Response, choice: Choice)
    requires Persisted(sha, render, d, place, r, choice).1 == Err(WriteFailed)
    ensures var e := Persisted(sha, render, d, place, r, choice).0;
            && !Ours(Now(e), ManifestName(r.responseId))
            && (false !in d.unlinks ==> e.files == e.foreign && Explained(d.files, d.others, e.files))
            && (false !in d.unlinks && d.others == [] ==> e.files == d.files)
  {
    FailedWrites(sha, render, d, place, r, choice);
    var wav := WavOf(r, choice).value;
    FailedCleared(d, r, choice, wav, render(ManifestOf(sha, r, choice, wav)), sha);
  }

  /** A run that succeeds leaves the complete set; an undisturbed one succeeds unless it is refused. */
  lemma {:induction false} PersistSucceeds(
    sha: HashFunction, render: Manifest -> Bytes, d: Disk, place: Place, r: Response, choice: Choice)
    ensures var (e, result) := Persisted(sha, render, d, place, r, choice);
            && (result.Ok? ==>
                && WavOf(r, choice).Ok?
                && var wav := WavOf(r, choice).value;
                   Complete(Now(e), r, choice, wav, render(ManifestOf(sha, r, choice, wav))))
            && (d.others == [] && false !in d.writes ==> result != Err(WriteFailed))
  {
    if WavOf(r, choice).Ok? {
      var wav := WavOf(r, choice).value;
      var manifest := render(ManifestOf(sha, r, choice, wav));
      WroteAllSound(sha, d, r, choice, wav, manifest);
      if d.others == [] && false !in d.writes && !Taken(d.files, r, choice) {
        Undisturbed(Opened(d), r, choice, wav, manifest);
      }
    }
  }

  lemma {:induction false} WriteUndisturbed(p: Progress, wanted: bool, name: string, data: Bytes)
    requires p.disk.others == [] && false !in p.disk.writes && !p.failed
    requires wanted ==> name !in p.disk.files
    ensures var q := Write(p, wanted, name, data);
            && q.disk.others == [] && false !in q.disk.writes && !q.failed
            && forall n :: n in q.disk.files <==> n in p.disk.files || (wanted && n == name)
  {
  }

  lemma {:induction false} Undisturbed(d: Disk, r: Response, choice: Choice, wav: Bytes, manifest: Bytes)
    requires d.others == [] && false !in d.writes && !Taken(d.files, r, choice)
    ensures !Writes(d, r, choice, wav, manifest).failed
  {
    var p := Progress(d, [], false);
    var audio := Write(p, choice.audio, WavName(r.responseId), wav);
    var text := Write(audio, choice.text, TextName(r.responseId), Utf8.Encode(r.transcript));
    NamesDiffer(r.responseId);
    WriteUndisturbed(p, choice.audio, WavName(r.responseId), wav);
    WriteUndisturbed(audio, choice.text, TextName(r.responseId), Utf8.Encode(r.transcript));
    WriteUndisturbed(text, true, ManifestName(r.responseId), manifest);
  }

  /** A complete set reads back as the response. */
  lemma {:induction false} CompleteReadsBack(s: Snapshot, r: Response, choice: Choice, wav: Bytes, manifest: Bytes)
    requires WavOf(r, choice) == Ok(wav) && Complete(s, r, choice, wav, manifest)
    ensures choice.audio ==>
              Wav.Read(s.files[WavName(r.responseId)])
              == Some(Wav.Sound(1, r.sampleRate, 2 * r.sampleRate, 2, 16, r.pcmAudio))
    ensures choice.text ==> Utf8.Decode(s.files[TextName(r.responseId)]) == Some(r.transcript)
  {
    if choice.audio {
      Wav.CreateRoundTrip(r.pcmAudio, r.sampleRate);
    }
    Utf8.DecodeEncode(r.transcript);
  }

  /** What the manifest says of a complete set: its fields, and exactly the files there with their digests. */
  lemma {:induction false} ManifestTells(
    sha: HashFunction, s: Snapshot, r: Response, choice: Choice, wav: Bytes, manifest: Bytes)
    requires WavOf(r, choice) == Ok(wav) && Complete(s, r, choice, wav, manifest)
    ensures var m := ManifestOf(sha, r, choice, wav);
            && m.responseId == r.responseId && m.status == r.status && m.sampleRate == r.sampleRate
            && m.audioDoneSeen == r.audioDoneSeen && m.eventTypes == r.eventTypes
            && m.pcmBytes == |r.pcmAudio| && m.pcmDigest == Urn(sha(r.pcmAudio))
            && m.characters == |r.transcript| && m.textDigest == Urn(sha(Utf8.Encode(r.transcript)))
            && forall n :: n != ManifestName(r.responseId) ==> (Ours(s, n) <==> Lists(m.wav, n) || Lists(m.text, n))
    ensures var m := ManifestOf(sha, r, choice, wav);
            m.wav.Some? ==>
              && m.wav.value.filename in s.files
              && m.wav.value.digest == Urn(sha(s.files[m.wav.value.filename]))
              && Wav.Read(s.files[m.wav.value.filename]).Some?
              && var samples := Wav.Read(s.files[m.wav.value.filename]).value.samples;
                 m.pcmBytes == |samples| && m.pcmDigest == Urn(sha(samples))
    ensures var m := ManifestOf(sha, r, choice, wav);
            m.text.Some? ==>
              && m.text.value.filename in s.files
              && var file := s.files[m.text.value.filename];
                 && m.text.value.digest == m.textDigest == Urn(sha(file)) && m.utf8Bytes == |file|
                 && Utf8.Decode(file).Some? && m.characters == |Utf8.Decode(file).value|
  {
    CompleteReadsBack(s, r, choice, wav, manifest);
    NamesDiffer(r.responseId);
    DataNamed(r, choice);
  }

  ghost predicate Lists(listed: Option<Listed>, name: string) {
    listed.Some? && listed.value.filename == name
  }

  lemma {:induction false} DataNamed(r: Response, choice: Choice)
    ensures forall n :: n in DataNames(r, choice) + [ManifestName(r.responseId)] <==>
              || (choice.audio && n == WavName(r.responseId)) || (choice.text && n == TextName(r.responseId))
              || n == ManifestName(r.responseId)
  {
  }

  /** persist_voice_response; `render` is the manifest's JSON text with its timestamp. */
  method Persist(
    sha: HashFunction, render: Manifest -> Bytes, dir: OutputDirectory, place: Place, r: Response, choice: Choice)
    returns (result: Result<Paths, Failure>)
    modifies dir
    ensures (dir.View(), result) == Persisted(sha, render, old(dir.View()), place, r, choice)
    ensures (choice.audio || choice.text) && place == Usable && Taken(old(dir.files), r, choice) ==>
              result == Err(Exists) && dir.files == old(dir.files)
    ensures result == Err(WriteFailed) ==> Cleared(old(dir.View()), dir.View())
    ensures result == Err(WriteFailed) && old(dir.others) == [] && false !in old(dir.unlinks) ==>
              dir.files == old(dir.files)
  {
    ghost var before := dir.View();
    dir.foreign, dir.moments := dir.files, [];
    if !choice.audio && !choice.text {
      return Err(NothingChosen);
    }
    if place != Usable {
      return Err(BadDirectory);
    }
    if Taken(dir.files, r, choice) {
      return Err(Exists);
    }
    var wav := WavOf(r, choice);
    if wav.Err? {
      return Err(NoWav(wav.error));
    }
    var manifest := render(ManifestOf(sha, r, choice, wav.value));
    var written := WriteAll(dir, r, choice, wav.value, manifest);
    if !written {
      FailedCleared(before, r, choice, wav.value, manifest, sha);
      return Err(WriteFailed);
    }
    return Ok(Paths(
      if choice.audio then Some(WavName(r.responseId)) else None,
      if choice.text then Some(TextName(r.responseId)) else None,
      ManifestName(r.responseId)));
  }
}
