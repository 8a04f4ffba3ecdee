/** The life of ciphertext files in the cache directory, as interleaved steps of uploads, writebacks,
    recaches and purges (ciphertext/cache.go, ciphertext/cachepurge.go, server/uploadDownload.go).

    A directory entry leads to a file, and an open handle keeps leading to the file it was opened on,
    whatever happens to the name. Each step is one call into the file system or into permanent storage;
    the choices a step leaves open (which file, whether the call succeeds) are in its label. */
module CacheMachine {
  import Cipher = CounterMode

  type Name = int
  type Bytes = seq<Cipher.Byte>
  type Pid = int

  datatype Ext = Uploading | Uploaded | Caching | Cached | Orphaned

  datatype Path = Path(name: Name, ext: Ext)

  /** Files are told apart by who created them: the one upload a name ever has, or some recache. */
  datatype File = UploadFile(name: Name) | FillFile(serial: nat)

  datatype Proc =
    | Opened(name: Name, size: nat, file: File)      // Writeback, before the upload
    | Stored(name: Name)                             // Writeback, before the rename
    | Downloading(name: Name, file: File)            // Recache, .caching created
    | Failed(name: Name)                             // Recache, nothing fetched yet
    | Ready(name: Name)                              // Recache, before the rename

  datatype State = State(
    dir: map<Path, File>,
    files: map<File, Bytes>,
    fills: nat,                    // how many files recaches have created
    permanent: map<Name, Bytes>,
    procs: map<Pid, Proc>,
    used: set<Name>,
    committed: map<Name, Bytes>)   // what uploads have been acknowledged with

  datatype Step =
    | BeginUpload(name: Name)
    | WriteUpload(name: Name, data: Bytes)
    | AbortUpload(name: Name)
    | CommitUpload(name: Name)
    | Discard(name: Name, removed: bool)
    | WritebackOpen(pid: Pid, name: Name)
    | WritebackStore(pid: Pid, stored: bool)
    | WritebackRename(pid: Pid, renamed: bool)
    | PurgeRemove(path: Path)
    | PurgeTruncate(path: Path)
    | RecacheCreate(pid: Pid, name: Name)
    | RecacheDownload(pid: Pid, fetch: Fetch)
    | RecachePeer(pid: Pid, body: PeerAnswer)
    | RecacheRename(pid: Pid)
    | RecacheGiveUp(pid: Pid)
    | Crash

  /** A download brings the whole of what is stored, or fails and leaves some part of it, or anything, behind. */
  datatype Fetch = Whole | Cut(part: Bytes)

  datatype PeerAnswer = NoPeerHasIt | PeerBody(data: Bytes)

  const EMPTY := State(map[], map[], 0, map[], map[], {}, map[])

  predicate Arrives(s: State, n: Name, fetch: Fetch) {
    fetch.Whole? && n in s.permanent
  }

  function Read(s: State, f: File): Bytes {
    if f in s.files then s.files[f] else []
  }

  function Remove(s: State, p: Path): State {
    s.(dir := s.dir - {p})
  }

  function Rename(s: State, src: Path, dst: Path): State
    requires src in s.dir
  {
    s.(dir := (s.dir - {src})[dst := s.dir[src]])
  }

  function End(s: State, pid: Pid): State {
    s.(procs := s.procs - {pid})
  }

  /** Creating .caching empties it if it is there; otherwise it is a new file. */
  function CreateCaching(s: State, n: Name): State {
    var p := Path(n, Caching);
    if p in s.dir then s.(files := s.files[s.dir[p] := []])
    else s.(dir := s.dir[p := FillFile(s.fills)], files := s.files[FillFile(s.fills) := []], fills := s.fills + 1)
  }

  predicate Enabled(s: State, a: Step) {
    match a
    case BeginUpload(n) => n !in s.used
    case WriteUpload(n, _) => Path(n, Uploading) in s.dir
    case AbortUpload(n) => Path(n, Uploading) in s.dir
    case CommitUpload(n) => Path(n, Uploading) in s.dir
    case Discard(n, _) => Path(n, Uploaded) in s.dir
    case WritebackOpen(pid, n) => pid !in s.procs && Path(n, Uploaded) in s.dir
    case WritebackStore(pid, _) => pid in s.procs && s.procs[pid].Opened?
    case WritebackRename(pid, _) => pid in s.procs && s.procs[pid].Stored?
    case PurgeRemove(p) => p in s.dir && p.ext != Uploaded
    case PurgeTruncate(p) => p in s.dir && p.ext != Uploaded
    case RecacheCreate(pid, _) => pid !in s.procs || s.procs[pid].Failed?
    case RecacheDownload(pid, _) => pid in s.procs && s.procs[pid].Downloading?
    case RecachePeer(pid, _) => pid in s.procs && s.procs[pid].Failed?
    case RecacheRename(pid) => pid in s.procs && s.procs[pid].Ready?
    case RecacheGiveUp(pid) => pid in s.procs && s.procs[pid].Failed?
    case Crash => true
  }

  function Apply(s: State, a: Step): State
    requires Enabled(s, a)
  {
    match a
    case BeginUpload(n) =>
      s.(dir := s.dir[Path(n, Uploading) := UploadFile(n)], files := s.files[UploadFile(n) := []],
         used := s.used + {n})
    case WriteUpload(n, data) =>
      var f := s.dir[Path(n, Uploading)];
      s.(files := s.files[f := Read(s, f) + data])
    case AbortUpload(n) =>
      Remove(s, Path(n, Uploading))
    case CommitUpload(n) =>
      var f := s.dir[Path(n, Uploading)];
      Rename(s, Path(n, Uploading), Path(n, Uploaded))
        .(committed := s.committed[n := Read(s, f)])
    case Discard(n, removed) =>
      var s' := if removed then Remove(s, Path(n, Uploaded)) else Rename(s, Path(n, Uploaded), Path(n, Orphaned));
      s'.(committed := s.committed - {n})
    case WritebackOpen(pid, n) =>
      var f := s.dir[Path(n, Uploaded)];
      s.(procs := s.procs[pid := Opened(n, |Read(s, f)|, f)])
    case WritebackStore(pid, stored) =>
      var p := s.procs[pid];
      if p.size == 0 then s.(procs := s.procs[pid := Stored(p.name)])
      else if stored then
        s.(procs := s.procs[pid := Stored(p.name)], permanent := s.permanent[p.name := Read(s, p.file)])
      else End(s, pid)
    case WritebackRename(pid, renamed) =>
      var n := s.procs[pid].name;
      if renamed && Path(n, Uploaded) in s.dir then End(Rename(s, Path(n, Uploaded), Path(n, Cached)), pid)
      else End(s, pid)
    case PurgeRemove(p) => Remove(s, p)
    case PurgeTruncate(p) => s.(files := s.files[s.dir[p] := []])
    case RecacheCreate(pid, n) =>
      var m := if pid in s.procs then s.procs[pid].name else n;
      var s' := CreateCaching(s, m);
      s'.(procs := s.procs[pid := Downloading(m, s'.dir[Path(m, Caching)])])
    case RecacheDownload(pid, fetch) =>
      var p := s.procs[pid];
      if Arrives(s, p.name, fetch) then
        s.(files := s.files[p.file := s.permanent[p.name]], procs := s.procs[pid := Ready(p.name)])
      else if fetch.Cut? then
        s.(files := s.files[p.file := fetch.part], procs := s.procs[pid := Failed(p.name)])
      else s.(procs := s.procs[pid := Failed(p.name)])
    case RecachePeer(pid, body) =>
      var n := s.procs[pid].name;
      match body {
        case NoPeerHasIt => s.(procs := s.procs[pid := Ready(n)])
        case PeerBody(data) =>
          var s' := CreateCaching(s, n);
          s'.(files := s'.files[s'.dir[Path(n, Caching)] := data], procs := s.procs[pid := Ready(n)])
      }
    case RecacheRename(pid) =>
      var n := s.procs[pid].name;
      if Path(n, Caching) in s.dir then End(Rename(s, Path(n, Caching), Path(n, Cached)), pid)
      else End(s, pid)
    case RecacheGiveUp(pid) =>
      End(Remove(s, Path(s.procs[pid].name, Caching)), pid)
    case Crash => s.(procs := map[])
  }

  function Content(s: State, p: Path): Bytes
    requires p in s.dir
  {
    Read(s, s.dir[p])
  }

  /** Every acknowledged, non-empty upload is still waiting in the cache or is in permanent storage. */
  ghost predicate Durable(s: State) {
    forall n :: n in s.committed && s.committed[n] != [] ==>
      || (Path(n, Uploaded) in s.dir && Content(s, Path(n, Uploaded)) == s.committed[n])
      || (n in s.permanent && s.permanent[n] == s.committed[n])
  }

  /** A cached name has its bytes in permanent storage. */
  ghost predicate CachedAreStored(s: State) {
    forall n :: n in s.committed && s.committed[n] != [] && Path(n, Cached) in s.dir ==>
      n in s.permanent && s.permanent[n] == s.committed[n]
  }

  /** A writeback has this name's file open, still has to upload it, and the bytes matter. */
  ghost predicate StillToStore(s: State, p: Path, pid: Pid) {
    && p in s.dir && IsOpened(s, pid)
    && s.procs[pid].file == s.dir[p]
    && s.procs[pid].name in s.committed && s.committed[s.procs[pid].name] != []
  }

  /** Emptying a file that could not be removed is safe when no writeback still has to store it. */
  ghost predicate SafeStep(s: State, a: Step) {
    a.PurgeTruncate? ==> forall pid :: !StillToStore(s, a.path, pid)
  }

  /** A run of enabled steps from s to t; a guarded run empties no file that is still to be stored. */
  ghost predicate Run(s: State, steps: seq<Step>, t: State, guarded: bool)
    decreases |steps|
  {
    if steps == [] then s == t
    else && Enabled(s, steps[0]) && (guarded ==> SafeStep(s, steps[0]))
         && Run(Apply(s, steps[0]), steps[1..], t, guarded)
  }

  // ----- The invariant -----

  predicate IsOpened(s: State, pid: Pid) {
    pid in s.procs && s.procs[pid].Opened?
  }

  /** Which files the names of each state lead to. Once an uploaded file has another name it is no
      longer waiting under its old one. */
  ghost predicate NamesRight(s: State) {
    forall p :: p in s.dir ==>
      match p.ext
      case Uploading => s.dir[p] == UploadFile(p.name) && p.name in s.used
      case Uploaded => s.dir[p] == UploadFile(p.name) && p.name in s.used && Path(p.name, Uploading) !in s.dir
      case Caching => s.dir[p].FillFile?
      case _ =>
        s.dir[p].UploadFile? ==>
          && s.dir[p].name == p.name && p.name in s.used
          && Path(p.name, Uploading) !in s.dir && Path(p.name, Uploaded) !in s.dir
  }

  /** Nothing has happened yet to a name that is unused or still being uploaded. */
  ghost predicate NewNames(s: State) {
    forall n :: n !in s.used || Path(n, Uploading) in s.dir ==> n !in s.committed && n !in s.permanent
  }

  ghost predicate ProcRight(s: State, p: Proc) {
    match p
    case Opened(n, size, f) =>
      && f == UploadFile(n) && n in s.used && Path(n, Uploading) !in s.dir
      && (n in s.committed ==> Read(s, f) == s.committed[n] && size == |s.committed[n]|)
    case Stored(n) =>
      && n in s.used && Path(n, Uploading) !in s.dir
      && (n in s.committed && s.committed[n] != [] ==> n in s.permanent)
    case Downloading(_, f) => f.FillFile?
    case _ => true
  }

  ghost predicate ProcsRight(s: State) {
    forall pid :: pid in s.procs ==> ProcRight(s, s.procs[pid])
  }

  /** What waits to be stored, and what is stored, is what was acknowledged. */
  ghost predicate BytesRight(s: State) {
    && (forall n :: Path(n, Uploaded) in s.dir ==> n in s.committed && Read(s, UploadFile(n)) == s.committed[n])
    && (forall n :: n in s.permanent && n in s.committed ==> s.permanent[n] == s.committed[n])
    && (forall n :: n in s.committed && s.committed[n] != [] ==> Path(n, Uploaded) in s.dir || n in s.permanent)
  }

  ghost predicate Inv(s: State) {
    NamesRight(s) && NewNames(s) && ProcsRight(s) && BytesRight(s)
  }

  lemma InvMeansDurable(s: State)
    requires Inv(s)
    ensures Durable(s)
  {
  }
}
