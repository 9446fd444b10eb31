// The key-value store that logs every put before applying it, and replays the log when it starts.
module SoleStorage {
  import opened Bytes
  import opened WalPage
  import opened WalNames
  import opened WalEntries
  import opened DiskWal
  import opened Cbor
  import opened Folds
  import opened Options

  type Store = map<ByteString, ByteString>

  // "____sequence_id____"
  const VERSION_KEY: ByteString :=
    [0x5f, 0x5f, 0x5f, 0x5f, 0x73, 0x65, 0x71, 0x75, 0x65, 0x6e, 0x63, 0x65, 0x5f, 0x69, 0x64, 0x5f, 0x5f, 0x5f, 0x5f]

  predicate KeyByte(b: byte) {
    0x30 <= b <= 0x39 || 0x61 <= b <= 0x7a || 0x41 <= b <= 0x5a || b == 0x5f
  }

  predicate ValidateKeyFormat(key: ByteString) {
    forall i :: 0 <= i < |key| ==> KeyByte(key[i])
  }

  // The disk store refuses badly formed keys, and the empty key.
  predicate Storable(key: ByteString) {
    key != [] && ValidateKeyFormat(key)
  }

  // The characters that a key may have: sixty-three of them.
  const KEY_CHARACTERS := "0123456789" + "ABCDEFGHIJKLMNOPQRSTUVWXYZ" + "_" + "abcdefghijklmnopqrstuvwxyz"

  // A key that the store takes: not empty, and of these characters only.
  predicate GoodKey(key: ByteString) {
    key != [] && forall i :: 0 <= i < |key| ==> (key[i] as nat) as char in KEY_CHARACTERS
  }

  lemma DigitListed(c: char)
    ensures c in "0123456789" <==> '0' <= c <= '9'
  {
  }

  lemma UpperListed(c: char)
    ensures c in "ABCDEFGHIJKLMNOPQRSTUVWXYZ" <==> 'A' <= c <= 'Z'
  {
  }

  lemma LowerListed(c: char)
    ensures c in "abcdefghijklmnopqrstuvwxyz" <==> 'a' <= c <= 'z'
  {
  }

  lemma CharacterListed(n: nat)
    requires n < 256
    ensures n as char in KEY_CHARACTERS
            <==> 0x30 <= n <= 0x39 || 0x41 <= n <= 0x5a || n == 0x5f || 0x61 <= n <= 0x7a
  {
    DigitListed(n as char);
    UpperListed(n as char);
    LowerListed(n as char);
  }

  lemma KeyByteListed(b: byte)
    ensures KeyByte(b) <==> (b as nat) as char in KEY_CHARACTERS
  {
    CharacterListed(b as nat);
  }

  lemma StorableExactly(key: ByteString)
    ensures Storable(key) <==> GoodKey(key)
  {
    forall i | 0 <= i < |key| ensures KeyByte(key[i]) <==> (key[i] as nat) as char in KEY_CHARACTERS {
      KeyByteListed(key[i]);
    }
  }

  class DiskvStorage {
    var data: Store

    constructor ()
      ensures data == map[]
    {
      data := map[];
    }

    method Put(key: ByteString, val: ByteString) returns (ok: bool)
      modifies this
      ensures ok == Storable(key) && (ok <==> GoodKey(key))
      ensures data == if ok then old(data)[key := val] else old(data)
    {
      StorableExactly(key);
      ok := key != [] && ValidateKeyFormat(key);
      if ok {
        data := data[key := val];
      }
    }

    method Get(key: ByteString) returns (ok: bool, found: Option<ByteString>)
      ensures ok == ValidateKeyFormat(key)
      ensures ok ==> found == if key in data then Some(data[key]) else None
    {
      ok := ValidateKeyFormat(key);
      found := if key in data then Some(data[key]) else None;
    }
  }

  // ---- the durable steps ----

  function LoggedEntry(key: ByteString, val: ByteString): ByteString {
    EncodeEntry(WalEntry(key, val, false))
  }

  // Whether recovery can apply a logged record.
  predicate Recoverable(buf: ByteString) {
    DecodeEntry(buf).Value? && Storable(DecodeEntry(buf).value.k)
  }

  function Recovered(kv: Store, buf: ByteString): Store {
    if Recoverable(buf) then kv[DecodeEntry(buf).value.k := DecodeEntry(buf).value.v] else kv
  }

  function VersionWritten(kv: Store, id: SequenceId): Store {
    kv[VERSION_KEY := EncodeVersion(id)]
  }

  // Where the replay of the log starts; the start of the log when no version was ever written.
  function VersionRead(kv: Store): Decoded<SequenceId> {
    if VERSION_KEY in kv then DecodeVersion(kv[VERSION_KEY]) else Value(START_WAL_SEQUENCE)
  }

  lemma VersionKeyStorable()
    ensures Storable(VERSION_KEY)
  {
  }

  // The store's own key, by its characters.
  lemma VersionKeyText()
    ensures |VERSION_KEY| == |"____sequence_id____"|
    ensures forall i :: 0 <= i < |VERSION_KEY| ==> (VERSION_KEY[i] as nat) as char == "____sequence_id____"[i]
  {
  }

  // What a put logs is what it was given, and recovery applies it exactly if the key is good.
  lemma LoggedEntryRecovers(kv: Store, key: ByteString, val: ByteString)
    requires Encodable(WalEntry(key, val, false))
    ensures DecodeEntry(LoggedEntry(key, val)) == Value(WalEntry(key, val, false))
    ensures Recoverable(LoggedEntry(key, val)) <==> GoodKey(key)
    ensures Recovered(kv, LoggedEntry(key, val)) == if GoodKey(key) then kv[key := val] else kv
  {
    EntryRoundTrip(WalEntry(key, val, false));
    StorableExactly(key);
  }

  // The version that was written last is the one that the next start reads, and it starts from (1, 1, 1) when none
  // was. Writing it changes nothing else.
  lemma WrittenVersionRead(kv: Store, id: SequenceId)
    requires Int64s(id)
    ensures VersionRead(VersionWritten(kv, id)) == Value(id)
    ensures VERSION_KEY !in kv ==> VersionRead(kv) == Value(SequenceId(1, 1, 1))
    ensures VersionWritten(kv, id) - {VERSION_KEY} == kv - {VERSION_KEY}
  {
    VersionRoundTrip(id);
  }

  // The store's own key passes the key check too: after a crash between the store write and the version write of
  // a put of it, the next start takes the value for its version, and fails unless it decodes to one.
  lemma VersionKeyPut(kv: Store, val: ByteString)
    ensures Storable(VERSION_KEY) && VersionRead(kv[VERSION_KEY := val]) == DecodeVersion(val)
    ensures VersionRead(kv[VERSION_KEY := []]) == Malformed
  {
    VersionKeyStorable();
  }

  class KVStorageAdvImpl {
    const wal: DiskWal
    const kv: DiskvStorage

    constructor (wal: DiskWal, kv: DiskvStorage)
      ensures this.wal == wal && this.kv == kv
    {
      this.wal := wal;
      this.kv := kv;
    }

    method ReadVersion() returns (version: Decoded<SequenceId>)
      ensures version == VersionRead(kv.data)
    {
      VersionKeyStorable();
      var ok, found := kv.Get(VERSION_KEY);
      if found == None {
        return Value(START_WAL_SEQUENCE);
      }
      version := DecodeVersion(found.value);
    }

    method WriteVersion(id: SequenceId)
      modifies kv
      ensures kv.data == VersionWritten(old(kv.data), id)
    {
      VersionKeyStorable();
      var _ := kv.Put(VERSION_KEY, EncodeVersion(id));
    }

    method RecoverFn(buf: ByteString) returns (ok: bool)
      modifies kv
      ensures ok == Recoverable(buf) && (ok <==> DecodeEntry(buf).Value? && GoodKey(DecodeEntry(buf).value.k))
      ensures kv.data == if !ok then old(kv.data) else old(kv.data)[DecodeEntry(buf).value.k := DecodeEntry(buf).value.v]
      ensures kv.data == Recovered(old(kv.data), buf)
    {
      var entry := DecodeEntry(buf);
      if entry.Malformed? {
        return false;
      }
      ok := kv.Put(entry.value.k, entry.value.v);
    }

    // Log first, then the store, then the version; a key that the store refuses stays in the log.
    method Put(key: ByteString, val: ByteString) returns (ok: bool)
      modifies wal, wal.folder, kv
      ensures wal.State() == EntryWritten(old(wal.State()), LoggedEntry(key, val))
      ensures ok == Storable(key) && (ok <==> GoodKey(key))
      ensures kv.data ==
              if ok then VersionWritten(old(kv.data)[key := val], wal.State().Position()) else old(kv.data)
    {
      var id := wal.WriteEntryWithFullPage(EncodeEntry(WalEntry(key, val, false)));
      ok := kv.Put(key, val);
      if ok {
        WriteVersion(id);
      }
    }

    // The replay's calls are applied in order after the log has been read; the log and the store are
    // in different folders.
    method Initialize() returns (ok: bool)
      modifies wal, wal.folder, kv
      ensures Initialized(old(wal.folder.files), old(wal.pageOccupied), old(wal.curFile)).InitFailed? ==>
        !ok && wal.State() == old(wal.State()) && kv.data == old(kv.data)
      ensures Initialized(old(wal.folder.files), old(wal.pageOccupied), old(wal.curFile)).Ready? ==>
        && wal.State() == Initialized(old(wal.folder.files), old(wal.pageOccupied), old(wal.curFile)).state
        && (VersionRead(old(kv.data)).Malformed? ==> !ok && kv.data == old(kv.data))
        && (VersionRead(old(kv.data)).Value? ==>
              var (result, calls) := Replaying(wal.State(), VersionRead(old(kv.data)).value, Recoverable);
              && ok == result.Replayed?
              && kv.data ==
                 if ok then VersionWritten(FoldLeft(Recovered, old(kv.data), calls), result.id)
                 else FoldLeft(Recovered, old(kv.data), calls))
    {
      var error := wal.Initialize();
      if error != None {
        return false;
      }
      var version := ReadVersion();
      if version.Malformed? {
        return false;
      }
      var result, calls := wal.ReplayIncomplete(version.value, Recoverable);
      ApplyAll(calls);
      ok := result.Replayed?;
      if ok {
        WriteVersion(result.id);
      }
    }

    method ApplyAll(calls: seq<ByteString>)
      modifies kv
      ensures kv.data == FoldLeft(Recovered, old(kv.data), calls)
    {
      var i := 0;
      while i < |calls|
        invariant 0 <= i <= |calls|
        invariant FoldLeft(Recovered, kv.data, calls[i..]) == FoldLeft(Recovered, old(kv.data), calls)
      {
        assert calls[i..][1..] == calls[i + 1..];
        var _ := RecoverFn(calls[i]);
        i := i + 1;
      }
    }
  }
}
