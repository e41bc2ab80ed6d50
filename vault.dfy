/**
 * The encrypted image folder of cryptage.py: every image of the folder "DB" is
 * kept as a Fernet token, the ledger "DB.csv" is kept in clear, and the key
 * file "key.txt" holds the current key in base 64. A Fernet token is modelled
 * as the sealed data together with the key that sealed it, so a token opens
 * exactly under its own key; the randomness of the token and of the keys is
 * left to the caller, who passes the keys generateKey would return.
 */
module Vault {
  import opened Wrappers
  import opened Base64Url

  /** A Fernet key as generateKey returns it (the bytes of its own base 64 text). */
  type Key = seq<Byte>

  /** The content of a file of the folder: plain bytes, or a Fernet token over some content. */
  datatype Blob = Plain(data: seq<Byte>) | Sealed(key: Key, inner: Blob)

  const Ledger: string := "DB.csv"
  const KeyFile: string := "key.txt"

  /** Fernet(k).encrypt. */
  function Seal(k: Key, b: Blob): (t: Blob)
    ensures t.Sealed? && t.key == k && t.inner == b
  {
    Sealed(k, b)
  }

  /** Fernet(k).decrypt: only a token sealed under k opens, anything else raises InvalidToken. */
  function Unseal(k: Key, t: Blob): (r: Result<Blob>)
    ensures r.Success? <==> t.Sealed? && t.key == k
    ensures r.Success? ==> Seal(k, r.value) == t
    ensures r.Failure? ==> r.error == InvalidToken
  {
    if t.Sealed? && t.key == k then Success(t.inner) else Failure(InvalidToken)
  }

  /** Fernet(base64.urlsafe_b64decode(text)): the key a key text stands for. */
  function CipherKey(text: string): (r: Result<Key>)
    ensures r.Success? <==> Decode(text).Some?
    ensures r.Failure? ==> r.error == BadKeyText
  {
    match Decode(text)
    case None => Failure(BadKeyText)
    case Some(k) => Success(k)
  }

  /** The key written by writeFile is the key every reader of the file builds its cipher from. */
  lemma CipherKeyOfWritten(k: Key)
    ensures CipherKey(Encode(k)) == Success(k)
  {
    DecodeEncode(k);
  }

  /** What the model keeps of the file system: the folder's files and the key file. */
  datatype Disk = Disk(files: map<string, Blob>, keyText: Option<string>)

  /** The state after a step, and the exception that interrupted it, if any. */
  datatype Run = Run(disk: Disk, error: Option<Error>)

  /** readFile(FILE). */
  function ReadKey(d: Disk): (r: Result<string>)
    ensures r.Success? <==> d.keyText.Some?
    ensures r.Success? ==> d.keyText == Some(r.value)
    ensures r.Failure? ==> r.error == FileNotFound(KeyFile)
  {
    if d.keyText.Some? then Success(d.keyText.value) else Failure(FileNotFound(KeyFile))
  }

  /** writeFile(FILE, k): the key file is created or overwritten with k in base 64. */
  function WriteKey(d: Disk, k: Key): (e: Disk)
    ensures e.files == d.files
    ensures e.keyText.Some? && CipherKey(e.keyText.value) == Success(k)
  {
    CipherKeyOfWritten(k);
    d.(keyText := Some(Encode(k)))
  }

  /** encryptionImage(text, name, True): the file is read, then sealed under the key of text. */
  function EncryptImage(d: Disk, text: string, name: string): (r: Run)
    ensures r.error.None? <==> name in d.files && CipherKey(text).Success?
    ensures r.error == None ==> r.disk == d.(files := d.files[name := Seal(CipherKey(text).value, d.files[name])])
    ensures r.error.Some? ==> r.disk == d
    ensures name !in d.files ==> r.error == Some(FileNotFound(name))
  {
    if name !in d.files then Run(d, Some(FileNotFound(name)))
    else
      match CipherKey(text)
      case Failure(e) => Run(d, Some(e))
      case Success(k) => Run(d.(files := d.files[name := Seal(k, d.files[name])]), None)
  }

  /**
   * encryptionImage(_, name, False): a new key is generated and written to the key
   * file, read back, and used to seal the file. The key file is rewritten even
   * when the image then turns out to be missing.
   */
  function EncryptImageFresh(d: Disk, name: string, k: Key): (r: Run)
    ensures r.disk.keyText == Some(Encode(k))
    ensures r.error.None? <==> name in d.files
    ensures r.error == None ==> r.disk.files == d.files[name := Seal(k, d.files[name])]
    ensures r.error.Some? ==> r.disk.files == d.files && r.error == Some(FileNotFound(name))
  {
    var written := WriteKey(d, k);
    EncryptImage(written, written.keyText.value, name)
  }

  /** decryptionImage(text, name): the file is read, unsealed under the key of text and written back in clear. */
  function DecryptImage(d: Disk, text: string, name: string): (r: Run)
    ensures r.error.None? <==> name in d.files && CipherKey(text).Success? && Unseal(CipherKey(text).value, d.files[name]).Success?
    ensures r.error == None ==> r.disk == d.(files := d.files[name := d.files[name].inner])
    ensures r.error.Some? ==> r.disk == d
    ensures name !in d.files ==> r.error == Some(FileNotFound(name))
    ensures name in d.files && CipherKey(text).Failure? ==> r.error == Some(BadKeyText)
    ensures name in d.files && CipherKey(text).Success? && r.error.Some? ==> r.error == Some(InvalidToken)
  {
    if name !in d.files then Run(d, Some(FileNotFound(name)))
    else
      match CipherKey(text)
      case Failure(e) => Run(d, Some(e))
      case Success(k) =>
        match Unseal(k, d.files[name])
        case Failure(e) => Run(d, Some(e))
        case Success(b) => Run(d.(files := d.files[name := b]), None)
  }

  /** The body of encryption's loop: encryptionImage(readFile(FILE), name, True). */
  function EncryptWithStoredKey(d: Disk, name: string): (r: Run)
    ensures d.keyText.None? ==> r == Run(d, Some(FileNotFound(KeyFile)))
    ensures d.keyText.Some? ==> r == EncryptImage(d, d.keyText.value, name)
  {
    match ReadKey(d)
    case Failure(e) => Run(d, Some(e))
    case Success(text) => EncryptImage(d, text, name)
  }

  /**
   * The four walks over the folder, each applying its step to every file but the
   * ledger: encryption's sealing under the stored key, newEncryption's rotation
   * from the old key text to a new key, and the opening and resealing of the
   * folder around the gallery scan, the latter with a new key for the file at
   * each position of the listing.
   */
  datatype Pass =
    | EncryptPass
    | RotatePass(previous: string, next: Key)
    | UnsealPass(text: string)
    | ResealPass(keys: seq<Key>)

  /** The key a resealing pass generates for the file at position i of the listing. */
  function FreshKey(keys: seq<Key>, i: nat): Key {
    if i < |keys| then keys[i] else []
  }

  function Step(pass: Pass, d: Disk, name: string, i: nat): Run {
    match pass
    case EncryptPass => EncryptWithStoredKey(d, name)
    case RotatePass(previous, next) =>
      var unsealed := DecryptImage(d, previous, name);
      if unsealed.error.Some? then unsealed else EncryptWithStoredKey(WriteKey(unsealed.disk, next), name)
    case UnsealPass(text) => DecryptImage(d, text, name)
    case ResealPass(keys) => EncryptImageFresh(d, name, FreshKey(keys, i))
  }

  /** A step changes the content of its own file at most, and no file appears or disappears. */
  lemma StepFrame(pass: Pass, d: Disk, name: string, i: nat)
    ensures Step(pass, d, name, i).disk.files.Keys == d.files.Keys
    ensures forall n :: n in d.files && n != name ==> Step(pass, d, name, i).disk.files[n] == d.files[n]
  {
  }

  /**
   * The walk over the listing names with the pass, in listing order, skipping the
   * ledger and stopping at the first exception, which the caller sees.
   */
  function Swept(d: Disk, names: seq<string>, pass: Pass): Run
    decreases |names|
  {
    if |names| == 0 then Run(d, None)
    else
      var before := Swept(d, names[..|names| - 1], pass);
      var name := names[|names| - 1];
      if before.error.Some? || name == Ledger then before
      else Step(pass, before.disk, name, |names| - 1)
  }

  /** No walk touches the ledger or a file outside its listing, or adds or removes a file. */
  lemma {:induction false} SweptFrame(d: Disk, names: seq<string>, pass: Pass)
    ensures Swept(d, names, pass).disk.files.Keys == d.files.Keys
    ensures forall n :: n in d.files && (n !in names || n == Ledger) ==> Swept(d, names, pass).disk.files[n] == d.files[n]
    decreases |names|
  {
    if |names| > 0 {
      var prefix := names[..|names| - 1];
      SweptFrame(d, prefix, pass);
      var before := Swept(d, prefix, pass);
      StepFrame(pass, before.disk, names[|names| - 1], |names| - 1);
      forall n | n in d.files && (n !in names || n == Ledger)
        ensures Swept(d, names, pass).disk.files[n] == d.files[n]
      {
        assert n !in prefix || n == Ledger;
      }
    }
  }

  lemma SweptExtends(d: Disk, names: seq<string>, pass: Pass, i: nat)
    requires i < |names|
    ensures var before := Swept(d, names[..i], pass);
      Swept(d, names[..i + 1], pass) ==
        if before.error.Some? || names[i] == Ledger then before else Step(pass, before.disk, names[i], i)
  {
    assert names[..i + 1][..i] == names[..i];
  }

  /** Once a walk has failed, the rest of the listing is not visited. */
  lemma {:induction false} SweptStopsAtFailure(d: Disk, names: seq<string>, pass: Pass, k: nat)
    requires k <= |names| && Swept(d, names[..k], pass).error.Some?
    ensures Swept(d, names, pass) == Swept(d, names[..k], pass)
    decreases |names| - k
  {
    if k < |names| {
      assert names[..k + 1][..k] == names[..k];
      SweptStopsAtFailure(d, names, pass, k + 1);
    } else {
      assert names[..k] == names;
    }
  }

  predicate Distinct(names: seq<string>) {
    forall i, j :: 0 <= i < j < |names| ==> names[i] != names[j]
  }

  /** The listing names the files of the folder, each once. */
  predicate Lists(names: seq<string>, files: map<string, Blob>) {
    Distinct(names) && forall k :: 0 <= k < |names| ==> names[k] in files
  }

  lemma ListsPrefix(names: seq<string>, files: map<string, Blob>)
    requires |names| > 0 && Lists(names, files)
    ensures Lists(names[..|names| - 1], files)
    ensures names[|names| - 1] !in names[..|names| - 1]
  {
  }

  /** A listed file other than the ledger: the files every walk visits. */
  predicate Visited(names: seq<string>, n: string) {
    n in names && n != Ledger
  }

  /** Some file of the listing is not the ledger. */
  predicate HasImage(names: seq<string>) {
    exists k :: 0 <= k < |names| && names[k] != Ledger
  }

  /** The files of before that are sealed, each by f applied to its old content; the rest as they were. */
  predicate SealedAs(after: map<string, Blob>, before: map<string, Blob>, names: seq<string>, k: Key) {
    after.Keys == before.Keys &&
    forall n :: n in before ==> after[n] == (if Visited(names, n) then Seal(k, before[n]) else before[n])
  }

  /**
   * encryption's walk, once the key k is written: every listed image is sealed
   * under k, nothing fails, and the ledger and the key file are left as they are.
   */
  lemma {:induction false} EncryptSweepSealsAll(d: Disk, names: seq<string>, k: Key)
    requires d.keyText == Some(Encode(k)) && Lists(names, d.files)
    ensures Swept(d, names, EncryptPass).error == None
    ensures Swept(d, names, EncryptPass).disk.keyText == d.keyText
    ensures SealedAs(Swept(d, names, EncryptPass).disk.files, d.files, names, k)
    decreases |names|
  {
    if |names| > 0 {
      var prefix, last := names[..|names| - 1], names[|names| - 1];
      ListsPrefix(names, d.files);
      EncryptSweepSealsAll(d, prefix, k);
      var before := Swept(d, prefix, EncryptPass);
      if last != Ledger {
        CipherKeyOfWritten(k);
        assert before.disk.files[last] == d.files[last];
      }
      assert forall n :: Visited(names, n) <==> Visited(prefix, n) || (n == last && n != Ledger);
    }
  }

  /** Every listed image is a token under k. */
  predicate AllSealedUnder(files: map<string, Blob>, names: seq<string>, k: Key) {
    forall n :: Visited(names, n) && n in files ==> files[n].Sealed? && files[n].key == k
  }

  /** The files of before with every listed image moved to a token under next over the same content. */
  predicate Rekeyed(after: map<string, Blob>, before: map<string, Blob>, names: seq<string>, next: Key) {
    after.Keys == before.Keys &&
    forall n :: n in before ==>
      if Visited(names, n) then before[n].Sealed? && after[n] == Seal(next, before[n].inner) else after[n] == before[n]
  }

  /**
   * newEncryption's walk from the old key text to the new key: when every listed
   * image is a token under the old key, each ends as a token under the new key
   * over the same content, and the key file holds the new key exactly when the
   * listing has an image.
   */
  lemma {:induction false} RotateSweepRekeys(d: Disk, names: seq<string>, previous: string, oldKey: Key, next: Key)
    requires CipherKey(previous) == Success(oldKey) && Lists(names, d.files)
    requires AllSealedUnder(d.files, names, oldKey)
    ensures Swept(d, names, RotatePass(previous, next)).error == None
    ensures Swept(d, names, RotatePass(previous, next)).disk.keyText == (if HasImage(names) then Some(Encode(next)) else d.keyText)
    ensures Rekeyed(Swept(d, names, RotatePass(previous, next)).disk.files, d.files, names, next)
    decreases |names|
  {
    if |names| > 0 {
      var prefix, last := names[..|names| - 1], names[|names| - 1];
      ListsPrefix(names, d.files);
      assert AllSealedUnder(d.files, prefix, oldKey);
      RotateSweepRekeys(d, prefix, previous, oldKey, next);
      var before := Swept(d, prefix, RotatePass(previous, next));
      if last != Ledger {
        CipherKeyOfWritten(next);
        assert before.disk.files[last] == d.files[last];
        assert HasImage(names) by { assert names[|names| - 1] != Ledger; }
      } else {
        HasImageBeyondLedger(names);
      }
      RekeyedExtends(Swept(d, names, RotatePass(previous, next)).disk.files, before.disk.files, d.files, names, next);
    }
  }

  lemma RekeyedExtends(after: map<string, Blob>, mid: map<string, Blob>, before: map<string, Blob>, names: seq<string>, next: Key)
    requires |names| > 0 && Lists(names, before)
    requires Rekeyed(mid, before, names[..|names| - 1], next)
    requires var last := names[|names| - 1];
      last == Ledger || before[last].Sealed?
    requires var last := names[|names| - 1];
      after == if last == Ledger then mid else mid[last := Seal(next, before[last].inner)]
    ensures Rekeyed(after, before, names, next)
  {
    var prefix, last := names[..|names| - 1], names[|names| - 1];
    assert forall n :: Visited(names, n) <==> Visited(prefix, n) || (n == last && n != Ledger);
  }

  /**
   * The opening of the folder before the gallery scan: when every listed image is
   * a token under the key of the text, each is written back in clear.
   */
  lemma {:induction false} UnsealSweepOpensAll(d: Disk, names: seq<string>, text: string, k: Key)
    requires CipherKey(text) == Success(k) && Lists(names, d.files)
    requires AllSealedUnder(d.files, names, k)
    ensures Swept(d, names, UnsealPass(text)).error == None
    ensures Swept(d, names, UnsealPass(text)).disk.keyText == d.keyText
    ensures var after := Swept(d, names, UnsealPass(text)).disk.files;
      after.Keys == d.files.Keys &&
      forall n :: n in d.files ==> after[n] == (if Visited(names, n) then d.files[n].inner else d.files[n])
    decreases |names|
  {
    if |names| > 0 {
      var prefix, last := names[..|names| - 1], names[|names| - 1];
      ListsPrefix(names, d.files);
      assert AllSealedUnder(d.files, prefix, k);
      UnsealSweepOpensAll(d, prefix, text, k);
      var before := Swept(d, prefix, UnsealPass(text));
      if last != Ledger {
        assert before.disk.files[last] == d.files[last];
      }
      assert forall n :: Visited(names, n) <==> Visited(prefix, n) || (n == last && n != Ledger);
    }
  }

  lemma HasImageBeyondLedger(names: seq<string>)
    requires |names| > 0 && names[|names| - 1] == Ledger
    ensures HasImage(names) <==> HasImage(names[..|names| - 1])
  {
    if HasImage(names) {
      var k :| 0 <= k < |names| && names[k] != Ledger;
      assert names[..|names| - 1][k] != Ledger;
    }
  }

  /** The position of the last image of the listing. */
  function LastImage(names: seq<string>): (i: nat)
    requires HasImage(names)
    ensures i < |names| && names[i] != Ledger
    ensures forall k :: i < k < |names| ==> names[k] == Ledger
  {
    if names[|names| - 1] != Ledger then |names| - 1
    else
      HasImageBeyondLedger(names);
      LastImage(names[..|names| - 1])
  }

  /** The key file after the resealing: rewritten for every image, it keeps the last new key. */
  lemma {:induction false} ResealSweepKeyFile(d: Disk, names: seq<string>, keys: seq<Key>)
    requires Lists(names, d.files)
    ensures Swept(d, names, ResealPass(keys)).error == None
    ensures Swept(d, names, ResealPass(keys)).disk.keyText ==
      (if HasImage(names) then Some(Encode(FreshKey(keys, LastImage(names)))) else d.keyText)
    decreases |names|
  {
    if |names| > 0 {
      var prefix, last := names[..|names| - 1], names[|names| - 1];
      ListsPrefix(names, d.files);
      ResealSweepKeyFile(d, prefix, keys);
      SweptFrame(d, prefix, ResealPass(keys));
      if last == Ledger {
        HasImageBeyondLedger(names);
      } else {
        assert HasImage(names) by { assert names[|names| - 1] != Ledger; }
      }
    }
  }

  /** The listed images of before, each sealed under the new key of its position; every other file as it was. */
  predicate ResealedAs(after: map<string, Blob>, before: map<string, Blob>, names: seq<string>, keys: seq<Key>) {
    after.Keys == before.Keys &&
    (forall n :: n in before && !Visited(names, n) ==> after[n] == before[n]) &&
    forall i :: 0 <= i < |names| && names[i] != Ledger && names[i] in before ==>
      after[names[i]] == Seal(FreshKey(keys, i), before[names[i]])
  }

  /** One more listed file: the last one, unless it is the ledger, is sealed under the key of its position. */
  lemma ResealedAsExtends(after: map<string, Blob>, mid: map<string, Blob>, before: map<string, Blob>, names: seq<string>, keys: seq<Key>)
    requires |names| > 0 && Lists(names, before)
    requires ResealedAs(mid, before, names[..|names| - 1], keys)
    requires var last := names[|names| - 1];
      after == if last == Ledger then mid else mid[last := Seal(FreshKey(keys, |names| - 1), mid[last])]
    ensures ResealedAs(after, before, names, keys)
  {
    var prefix, last := names[..|names| - 1], names[|names| - 1];
    ListsPrefix(names, before);
    forall i | 0 <= i < |names| && names[i] != Ledger && names[i] in before
      ensures after[names[i]] == Seal(FreshKey(keys, i), before[names[i]])
    {
      if i < |prefix| {
        assert names[i] == prefix[i] != last;
      }
    }
    forall n | n in before && !Visited(names, n)
      ensures after[n] == before[n]
    {
      assert n == Ledger || (!Visited(prefix, n) && n != last);
    }
  }

  lemma {:induction false} ResealSweepFiles(d: Disk, names: seq<string>, keys: seq<Key>)
    requires Lists(names, d.files)
    ensures ResealedAs(Swept(d, names, ResealPass(keys)).disk.files, d.files, names, keys)
    decreases |names|
  {
    if |names| > 0 {
      var prefix, last := names[..|names| - 1], names[|names| - 1];
      ListsPrefix(names, d.files);
      ResealSweepFiles(d, prefix, keys);
      ResealSweepKeyFile(d, prefix, keys);
      ResealedAsExtends(Swept(d, names, ResealPass(keys)).disk.files, Swept(d, prefix, ResealPass(keys)).disk.files, d.files, names, keys);
    }
  }

  /**
   * The resealing of the folder after the gallery scan: the image at position i
   * is sealed under the i-th new key, and the key file ends with the key of the
   * last image only.
   */
  lemma ResealSweepKeysEach(d: Disk, names: seq<string>, keys: seq<Key>)
    requires Lists(names, d.files)
    ensures Swept(d, names, ResealPass(keys)).error == None
    ensures Swept(d, names, ResealPass(keys)).disk.keyText ==
      (if HasImage(names) then Some(Encode(FreshKey(keys, LastImage(names)))) else d.keyText)
    ensures var after := Swept(d, names, ResealPass(keys)).disk.files;
      after.Keys == d.files.Keys &&
      (forall n :: n in d.files && !Visited(names, n) ==> after[n] == d.files[n]) &&
      forall i :: 0 <= i < |names| && names[i] != Ledger ==> after[names[i]] == Seal(FreshKey(keys, i), d.files[names[i]])
  {
    ResealSweepKeyFile(d, names, keys);
    ResealSweepFiles(d, names, keys);
  }

  /**
   * After the resealing, the key file opens the last image only: an image at an
   * earlier position, sealed under a different new key, raises InvalidToken when
   * decryptionImage is given the stored key.
   */
  lemma StoredKeyOpensLastImageOnly(d: Disk, names: seq<string>, keys: seq<Key>, i: nat)
    requires Lists(names, d.files) && i < |names| && names[i] != Ledger
    ensures HasImage(names)
    ensures Swept(d, names, ResealPass(keys)).disk.keyText == Some(Encode(FreshKey(keys, LastImage(names))))
    ensures var after := Swept(d, names, ResealPass(keys)).disk;
      var unsealed := DecryptImage(after, Encode(FreshKey(keys, LastImage(names))), names[i]);
      (unsealed.error.None? <==> FreshKey(keys, i) == FreshKey(keys, LastImage(names))) &&
      (unsealed.error.None? ==> unsealed.disk.files[names[i]] == d.files[names[i]])
  {
    assert HasImage(names);
    ResealSweepKeysEach(d, names, keys);
    CipherKeyOfWritten(FreshKey(keys, LastImage(names)));
  }

  /** newEncryption(): the old key text is read first, then every image moves from it to the new key. */
  function Rotated(d: Disk, names: seq<string>, next: Key): (r: Run)
    ensures d.keyText.None? ==> r == Run(d, Some(FileNotFound(KeyFile)))
  {
    match ReadKey(d)
    case Failure(e) => Run(d, Some(e))
    case Success(previous) => Swept(d, names, RotatePass(previous, next))
  }

  /** The opening of the folder before the gallery scan: the key text is read, then every image is decrypted with it. */
  function Opened(d: Disk, names: seq<string>): (r: Run)
    ensures d.keyText.None? ==> r == Run(d, Some(FileNotFound(KeyFile)))
  {
    match ReadKey(d)
    case Failure(e) => Run(d, Some(e))
    case Success(text) => Swept(d, names, UnsealPass(text))
  }

  /**
   * The end of main: the folder is rebuilt from the master copy, encryption seals
   * it under a first key and newEncryption moves it to a second. Every listed
   * image is then a token under the stored key over its master content, and the
   * ledger is the master's.
   */
  lemma RebuildSealsMaster(master: map<string, Blob>, names: seq<string>, keyText: Option<string>, first: Key, second: Key)
    requires Lists(names, master)
    ensures var encrypted := Swept(WriteKey(Disk(master, keyText), first), names, EncryptPass);
      encrypted.error == None &&
      var rotated := Rotated(encrypted.disk, names, second);
      rotated.error == None &&
      rotated.disk.keyText == Some(Encode(if HasImage(names) then second else first)) &&
      rotated.disk.files.Keys == master.Keys &&
      (forall n :: Visited(names, n) ==> rotated.disk.files[n] == Seal(if HasImage(names) then second else first, master[n])) &&
      forall n :: n in master && !Visited(names, n) ==> rotated.disk.files[n] == master[n]
  {
    var start := WriteKey(Disk(master, keyText), first);
    EncryptSweepSealsAll(start, names, first);
    var encrypted := Swept(start, names, EncryptPass);
    CipherKeyOfWritten(first);
    RotateSweepRekeys(encrypted.disk, names, Encode(first), first, second);
    assert forall n :: Visited(names, n) ==> HasImage(names);
  }

  /**
   * What the next gallery scan finds after main has rebuilt the folder: opening it
   * with the stored key succeeds and gives back every file of the master copy.
   */
  lemma RebuildThenOpenGivesMaster(master: map<string, Blob>, names: seq<string>, keyText: Option<string>, first: Key, second: Key)
    requires Lists(names, master)
    ensures var encrypted := Swept(WriteKey(Disk(master, keyText), first), names, EncryptPass);
      var rotated := Rotated(encrypted.disk, names, second);
      var reopened := Opened(rotated.disk, names);
      reopened.error == None && reopened.disk.files == master
  {
    RebuildSealsMaster(master, names, keyText, first, second);
    var encrypted := Swept(WriteKey(Disk(master, keyText), first), names, EncryptPass);
    var rotated := Rotated(encrypted.disk, names, second);
    var k := if HasImage(names) then second else first;
    CipherKeyOfWritten(k);
    UnsealSweepOpensAll(rotated.disk, names, Encode(k), k);
  }

  /**
   * The vault as the program changes it: the folder's files and the key file, both
   * rewritten in place by the operations of cryptage.py.
   */
  class Folder {
    var files: map<string, Blob>
    var keyText: Option<string>

    function State(): Disk
      reads this
    {
      Disk(files, keyText)
    }

    constructor (files: map<string, Blob>, keyText: Option<string>)
      ensures State() == Disk(files, keyText)
    {
      this.files := files;
      this.keyText := keyText;
    }

    /** writeFile(FILE, k). */
    method WriteFile(k: Key)
      modifies this
      ensures State() == WriteKey(old(State()), k)
    {
      keyText := Some(Encode(k));
    }

    /** readFile(FILE). */
    method ReadFile() returns (r: Result<string>)
      ensures r == ReadKey(State())
    {
      if keyText.None? {
        return Failure(FileNotFound(KeyFile));
      }
      return Success(keyText.value);
    }

    /** encryptionImage(text, name, useGiven), with generated the key generateKey returns when useGiven is false. */
    method EncryptionImage(text: string, name: string, useGiven: bool, generated: Key) returns (err: Option<Error>)
      modifies this
      ensures Run(State(), err) ==
        (if useGiven then EncryptImage(old(State()), text, name) else EncryptImageFresh(old(State()), name, generated))
    {
      var key := text;
      if !useGiven {
        WriteFile(generated);
        var stored := ReadFile();
        key := stored.value;
      }
      if name !in files {
        return Some(FileNotFound(name));
      }
      var content := files[name];
      var cipher := CipherKey(key);
      if cipher.Failure? {
        return Some(cipher.error);
      }
      files := files[name := Seal(cipher.value, content)];
      err := None;
    }

    /** decryptionImage(text, name). */
    method DecryptionImage(text: string, name: string) returns (err: Option<Error>)
      modifies this
      ensures Run(State(), err) == DecryptImage(old(State()), text, name)
    {
      if name !in files {
        return Some(FileNotFound(name));
      }
      var token := files[name];
      var cipher := CipherKey(text);
      if cipher.Failure? {
        return Some(cipher.error);
      }
      var unsealed := Unseal(cipher.value, token);
      if unsealed.Failure? {
        return Some(unsealed.error);
      }
      files := files[name := unsealed.value];
      err := None;
    }

    /** One visit of a walk: the loop body of the pass for the file at position i. */
    method Visit(pass: Pass, name: string, i: nat) returns (err: Option<Error>)
      modifies this
      ensures Run(State(), err) == Step(pass, old(State()), name, i)
    {
      match pass
      case EncryptPass =>
        var stored := ReadFile();
        if stored.Failure? {
          return Some(stored.error);
        }
        err := EncryptionImage(stored.value, name, true, []);
      case RotatePass(previous, next) =>
        err := DecryptionImage(previous, name);
        if err.Some? {
          return;
        }
        WriteFile(next);
        var stored := ReadFile();
        err := EncryptionImage(stored.value, name, true, []);
      case UnsealPass(text) =>
        err := DecryptionImage(text, name);
      case ResealPass(keys) =>
        err := EncryptionImage("", name, false, FreshKey(keys, i));
    }

    /** The walk over the listing: every file but the ledger, in order, until the first exception. */
    method Walk(names: seq<string>, pass: Pass) returns (err: Option<Error>)
      modifies this
      ensures Run(State(), err) == Swept(old(State()), names, pass)
    {
      ghost var start := State();
      for i := 0 to |names|
        invariant Swept(start, names[..i], pass) == Run(State(), None)
      {
        SweptExtends(start, names, pass, i);
        if names[i] != Ledger {
          err := Visit(pass, names[i], i);
          if err.Some? {
            SweptStopsAtFailure(start, names, pass, i + 1);
            return;
          }
        }
      }
      assert names[..|names|] == names;
      err := None;
    }

    /** encryption(folder, file): a new key is written, then every image of the listing is sealed under the stored key. */
    method Encryption(names: seq<string>, generated: Key) returns (err: Option<Error>)
      modifies this
      ensures Run(State(), err) == Swept(WriteKey(old(State()), generated), names, EncryptPass)
    {
      WriteFile(generated);
      err := Walk(names, EncryptPass);
    }

    /** newEncryption(). */
    method NewEncryption(names: seq<string>, generated: Key) returns (err: Option<Error>)
      modifies this
      ensures Run(State(), err) == Rotated(old(State()), names, generated)
    {
      var previous := ReadFile();
      if previous.Failure? {
        return Some(previous.error);
      }
      err := Walk(names, RotatePass(previous.value, generated));
    }

    /** The decryption loop at the start of fingerprint_recognition. */
    method Open(names: seq<string>) returns (err: Option<Error>)
      modifies this
      ensures Run(State(), err) == Opened(old(State()), names)
    {
      var text := ReadFile();
      if text.Failure? {
        return Some(text.error);
      }
      err := Walk(names, UnsealPass(text.value));
    }

    /** shutil.rmtree("DB") then shutil.copytree("DB_original", "DB"): the folder becomes the master copy. */
    method Restore(master: map<string, Blob>)
      modifies this
      ensures State() == old(State()).(files := master)
    {
      files := master;
    }
  }
}
