/** File transfers that stage into a temporary file, verify, and rename: `PUT` and `SendFile`,
    `GET` and `RecvFile`, `RESUME`. A disk remembers every state it went through, so "a crash
    after any step" is "any remembered state". */
module Staging {
  import opened Optional
  import opened Text

  type Byte = b: int | 0 <= b < 256
  type Bytes = seq<Byte>
  type Files = map<string, Bytes>

  function At(files: Files, path: string): Option<Bytes> {
    if path in files then Some(files[path]) else None
  }

  ghost predicate CollisionFree(md5: Bytes -> string) {
    forall a, b :: md5(a) == md5(b) ==> a == b
  }

  // ----- streams -----

  function Concat(chunks: seq<Bytes>): Bytes {
    if chunks == [] then [] else Concat(chunks[..|chunks| - 1]) + chunks[|chunks| - 1]
  }

  /** The first `limit` bytes, or all of them. */
  function Cut(bytes: Bytes, limit: int): Bytes {
    if limit <= 0 then [] else if limit < |bytes| then bytes[..limit] else bytes
  }

  /** What a reader limited to `limit` bytes takes from a stream that arrives in chunks. */
  function Taken(chunks: seq<Bytes>, limit: int): Bytes {
    Cut(Concat(chunks), limit)
  }

  lemma TakenOneMore(chunks: seq<Bytes>, i: nat, limit: int)
    requires i < |chunks|
    ensures Taken(chunks[..i + 1], limit)
         == Taken(chunks[..i], limit) + Cut(chunks[i], limit - |Taken(chunks[..i], limit)|)
  {
    assert chunks[..i + 1][..i] == chunks[..i];
  }

  lemma {:induction false} ConcatGrows(chunks: seq<Bytes>, i: nat)
    requires i <= |chunks|
    ensures Concat(chunks[..i]) <= Concat(chunks)
  {
    if i == |chunks| {
      assert chunks[..i] == chunks;
    } else {
      ConcatGrows(chunks[..|chunks| - 1], i);
      assert chunks[..|chunks| - 1][..i] == chunks[..i];
    }
  }

  lemma TakenGrows(chunks: seq<Bytes>, i: nat, limit: int)
    requires i <= |chunks|
    ensures Taken(chunks[..i], limit) <= Taken(chunks, limit)
  {
    ConcatGrows(chunks, i);
  }

  /** What a file that held `before` holds after the first `i` chunks. */
  function Held(before: Bytes, chunks: seq<Bytes>, i: nat, limit: int): Bytes
    requires i <= |chunks|
  {
    before + Taken(chunks[..i], limit)
  }

  lemma StartHeld(before: Bytes, chunks: seq<Bytes>, limit: int)
    ensures Held(before, chunks, 0, limit) == before
  {
    assert chunks[..0] == [];
    assert before + [] == before;
  }

  lemma HeldOneMore(before: Bytes, chunks: seq<Bytes>, i: nat, limit: int)
    requires i < |chunks|
    ensures var held := Held(before, chunks, i, limit);
      Held(before, chunks, i + 1, limit) == held + Cut(chunks[i], limit - (|held| - |before|))
    ensures Held(before, chunks, i + 1, limit) <= before + Taken(chunks, limit)
  {
    TakenOneMore(chunks, i, limit);
    TakenGrows(chunks, i + 1, limit);
  }

  // ----- crash states -----

  /** In every state since `from`, `path` is one of `allowed`. */
  ghost predicate Only(past: seq<Files>, from: nat, path: string, allowed: set<Option<Bytes>>) {
    forall i | from <= i < |past| :: At(past[i], path) in allowed
  }

  /** In every state since `from`, `path` is missing or holds a prefix of `content`. */
  ghost predicate PrefixOnly(past: seq<Files>, from: nat, path: string, content: Bytes) {
    forall i | from <= i < |past| && path in past[i] :: past[i][path] <= content
  }

  /** What the system grants: creating the temporary file, copying so many chunks, renaming. */
  datatype Luck = Luck(opens: bool, copies: nat, renames: bool)

  datatype Reply = Ok(bytes: int, digest: Option<string>) | Error | Skip

  class Disk {
    var files: Files
    var past: seq<Files>  // every state so far, the current one last

    ghost predicate Valid()
      reads this
    {
      past != [] && past[|past| - 1] == files
    }

    constructor (files: Files)
      ensures Valid() && this.files == files && past == [files]
    {
      this.files, this.past := files, [files];
    }

    method Write(path: string, content: Bytes)
      requires Valid()
      modifies this
      ensures Valid() && files == old(files)[path := content] && past == old(past) + [files]
    {
      files := files[path := content];
      past := past + [files];
    }

    method Remove(path: string)
      requires Valid()
      modifies this
      ensures Valid() && files == old(files) - {path} && past == old(past) + [files]
    {
      files := files - {path};
      past := past + [files];
    }

    method Rename(from: string, to: string)
      requires Valid() && from in files && from != to
      modifies this
      ensures Valid() && files == (old(files) - {from})[to := old(files)[from]] && past == old(past) + [files]
    {
      files := (files - {from})[to := files[from]];
      past := past + [files];
    }

    /** One write to an open file; every crash state keeps `target` and a prefix of `whole`. */
    method Append(tmp: string, part: Bytes, ghost from: nat, ghost target: string, ghost whole: Bytes)
      requires Valid() && tmp in files && target != tmp && files[tmp] + part <= whole
      requires PrefixOnly(past, from, tmp, whole) && Only(past, from, target, {At(files, target)})
      modifies this
      ensures Valid() && old(past) <= past
      ensures files == old(files)[tmp := old(files[tmp]) + part] && At(files, target) == At(old(files), target)
      ensures PrefixOnly(past, from, tmp, whole) && Only(past, from, target, {At(files, target)})
    {
      Write(tmp, files[tmp] + part);
    }

    /** Copying from a connection into an open file, one chunk a step; it fails after `copies` of them. */
    method Copy(tmp: string, chunks: seq<Bytes>, limit: int, copies: nat, ghost target: string) returns (ok: bool)
      requires Valid() && tmp in files && target != tmp
      modifies this
      ensures Valid() && old(past) <= past
      ensures Only(past, |old(past)|, target, {At(old(files), target)})
      ensures PrefixOnly(past, |old(past)|, tmp, old(files[tmp]) + Taken(chunks, limit))
      ensures tmp in files && files == old(files)[tmp := files[tmp]]
      ensures old(files[tmp]) <= files[tmp] <= old(files[tmp]) + Taken(chunks, limit)
      ensures ok <==> copies >= |chunks|
      ensures ok ==> files[tmp] == old(files[tmp]) + Taken(chunks, limit)
    {
      ghost var before, whole := files[tmp], files[tmp] + Taken(chunks, limit);
      var taken := 0;
      StartHeld(before, chunks, limit);
      for i := 0 to |chunks|
        invariant i <= copies
        invariant Valid() && old(past) <= past
        invariant Only(past, |old(past)|, target, {At(files, target)}) && At(files, target) == At(old(files), target)
        invariant PrefixOnly(past, |old(past)|, tmp, whole)
        invariant tmp in files && files == old(files)[tmp := files[tmp]]
        invariant files[tmp] == Held(before, chunks, i, limit) <= whole && taken == |files[tmp]| - |before|
      {
        if i == copies {
          return false;
        }
        var part := Cut(chunks[i], limit - taken);
        HeldOneMore(before, chunks, i, limit);
        Append(tmp, part, |old(past)|, target, whole);
        taken := taken + |part|;
      }
      assert chunks[..|chunks|] == chunks;
      return true;
    }

    /** Receiving a whole file into `tmp`: it is there in full, or gone again. */
    method Stage(tmp: string, size: int, incoming: seq<Bytes>, luck: Luck, ghost target: string)
      returns (staged: bool)
      requires Valid() && target != tmp
      modifies this
      ensures Valid() && old(past) <= past
      ensures Only(past, |old(past)|, target, {At(old(files), target)})
      ensures forall p | p != tmp :: At(files, p) == At(old(files), p)
      ensures staged <==> luck.opens && luck.copies >= |incoming| && size <= |Concat(incoming)|
      ensures staged ==> At(files, tmp) == Some(Taken(incoming, size)) && size <= |Taken(incoming, size)|
      ensures !staged && luck.opens ==> At(files, tmp) == None
    {
      if !luck.opens {
        return false;
      }
      Write(tmp, []);
      var copied := Copy(tmp, incoming, size, luck.copies, target);
      if !copied || |files[tmp]| < size {
        Remove(tmp);
        return false;
      }
      assert [] + Taken(incoming, size) == Taken(incoming, size);
      return true;
    }

    /** The rename that puts a staged file in place, or the clean-up when it fails. */
    method Install(tmp: string, path: string, renames: bool) returns (installed: bool)
      requires Valid() && tmp in files && tmp != path
      modifies this
      ensures Valid() && old(past) <= past
      ensures Only(past, |old(past)|, path, {At(old(files), path), Some(old(files[tmp]))})
      ensures forall p | p != path && p != tmp :: At(files, p) == At(old(files), p)
      ensures At(files, path) == if installed then Some(old(files[tmp])) else At(old(files), path)
      ensures !installed ==> Only(past, |old(past)|, path, {At(old(files), path)})
      ensures installed == renames && At(files, tmp) == None
    {
      if renames {
        Rename(tmp, path);
      } else {
        Remove(tmp);
      }
      return renames;
    }

    /** `PUT`, from creating the temporary file to the reply. `incoming` is whatever arrives. */
    method HandlePut(
      path: string, pid: string, size: int, incoming: seq<Bytes>, md5: Bytes -> string, luck: Luck)
      returns (reply: Reply)
      requires Valid()
      modifies this
      ensures Valid() && old(past) <= past
      ensures Only(past, |old(past)|, path, {At(old(files), path), Some(Taken(incoming, size))})
      ensures size > |Concat(incoming)| || reply.Error? ==> Only(past, |old(past)|, path, {At(old(files), path)})
      ensures reply.Ok? || reply.Error?
      ensures reply.Ok? <==> luck.opens && luck.copies >= |incoming| && size <= |Concat(incoming)| && luck.renames
      ensures luck.opens ==> At(files, TempName(path, pid)) == None
      ensures reply.Ok? ==>
        && At(files, path) == Some(Taken(incoming, size))
        && size <= |Taken(incoming, size)| == reply.bytes
        && reply.digest == Some(md5(Taken(incoming, size)))
      ensures reply.Error? ==> At(files, path) == At(old(files), path)
      ensures forall p | p != path && p != TempName(path, pid) :: At(files, p) == At(old(files), p)
    {
      var tmp := TempName(path, pid);
      var staged := Stage(tmp, size, incoming, luck, path);
      if !staged {
        return Error;
      }
      var content := files[tmp];
      var installed := Install(tmp, path, luck.renames);
      if !installed {
        return Error;
      }
      return Ok(|content|, Some(md5(content)));
    }

    /** `RecvFile` after the SIZE line: `header` is its digest, `trailer` the line after the data. */
    method RecvFile(
      path: string, pid: string, size: int, header: Option<string>, incoming: seq<Bytes>, trailer: string,
      md5: Bytes -> string, luck: Luck)
      returns (ok: bool)
      requires Valid()
      modifies this
      ensures Valid() && old(past) <= past
      ensures Only(past, |old(past)|, path, {At(old(files), path), Some(Taken(incoming, size))})
      ensures ok ==>
        && At(files, path) == Some(Taken(incoming, size))
        && size <= |Taken(incoming, size)|
        && DigestMatches(header, trailer, md5(Taken(incoming, size)))
      ensures ok <==>
        && luck.opens && luck.copies >= |incoming| && size <= |Concat(incoming)| && luck.renames
        && DigestMatches(header, trailer, md5(Taken(incoming, size)))
      ensures luck.opens ==> At(files, TempName(path, pid)) == None
      ensures size > |Concat(incoming)| || !ok ==> Only(past, |old(past)|, path, {At(old(files), path)})
      ensures forall p | p != path && p != TempName(path, pid) :: At(files, p) == At(old(files), p)
    {
      var tmp := TempName(path, pid);
      var staged := Stage(tmp, size, incoming, luck, path);
      if !staged {
        return false;
      }
      var digest := Digest(header, trailer);
      if digest.Some? && digest.value != md5(files[tmp]) {
        Remove(tmp);
        return false;
      }
      ok := Install(tmp, path, luck.renames);
    }

    /** `HandleResume`. Neither a short delivery nor the rename's error is looked at; `delivered`
        and `renamed` say whether they went well. */
    method HandleResume(
      path: string, size: int, md5sum: string, incoming: seq<Bytes>, md5: Bytes -> string, luck: Luck)
      returns (reply: Reply, ghost delivered: bool, ghost renamed: bool)
      requires Valid()
      modifies this
      ensures Valid() && old(past) <= past
      ensures reply.Skip? <==> Verified(At(old(files), path), md5sum, md5)
      ensures reply.Skip? ==> files == old(files) && past == old(past)
      ensures Only(past, |old(past)|, path, {At(old(files), path), At(files, path)})
      ensures PrefixOnly(past, |old(past)|, path + ".tmp", Resumed(old(files), path, size, incoming))
      ensures reply.Ok? && renamed ==>
        && Verified(At(files, path), md5sum, md5)
        && (delivered ==> At(files, path) == Some(Resumed(old(files), path, size, incoming)))
      ensures !(reply.Ok? && renamed) ==> At(files, path) == At(old(files), path)
      ensures delivered && !reply.Skip? ==>
        (reply.Ok? <==> md5(Resumed(old(files), path, size, incoming)) == md5sum)
      ensures reply.Error? ==> At(files, path + ".tmp") == None
      ensures delivered <==> !reply.Skip? && luck.copies >= |incoming|
      ensures renamed <==> reply.Ok? && luck.renames
      ensures forall p | p != path && p != path + ".tmp" :: At(files, p) == At(old(files), p)
    {
      delivered, renamed := false, false;
      if path in files && md5(files[path]) == md5sum {
        return Skip, delivered, renamed;
      }
      delivered := Fill(path, size, incoming, luck.copies);
      var matches: bool;
      matches, renamed := Settle(path, md5sum, md5, luck.renames);
      reply := if matches then Ok(size, None) else Error;
    }

    /** Continue the partial file, or start one. */
    method Fill(path: string, size: int, incoming: seq<Bytes>, copies: nat) returns (delivered: bool)
      requires Valid()
      modifies this
      ensures Valid() && old(past) <= past
      ensures Only(past, |old(past)|, path, {At(old(files), path)})
      ensures PrefixOnly(past, |old(past)|, path + ".tmp", Resumed(old(files), path, size, incoming))
      ensures forall p | p != path + ".tmp" :: At(files, p) == At(old(files), p)
      ensures path + ".tmp" in files && files[path + ".tmp"] <= Resumed(old(files), path, size, incoming)
      ensures delivered <==> copies >= |incoming|
      ensures delivered ==> files[path + ".tmp"] == Resumed(old(files), path, size, incoming)
    {
      var tmp := path + ".tmp";
      ghost var whole := Resumed(files, path, size, incoming);
      var start := if tmp in files then files[tmp] else [];
      if tmp !in files {
        Write(tmp, []);
      }
      assert files[tmp] == start;
      delivered := Copy(tmp, incoming, size - |start|, copies, path);
      assert start + Taken(incoming, size - |start|) == whole;
    }

    /** Verify the assembled file, then rename it into place or remove it. */
    method Settle(path: string, md5sum: string, md5: Bytes -> string, renames: bool)
      returns (matches: bool, ghost renamed: bool)
      requires Valid() && path + ".tmp" in files
      modifies this
      ensures Valid() && old(past) <= past
      ensures matches <==> md5(old(files[path + ".tmp"])) == md5sum
      ensures renamed <==> matches && renames
      ensures At(files, path) == if matches && renamed then Some(old(files[path + ".tmp"])) else At(old(files), path)
      ensures Only(past, |old(past)|, path, {At(files, path)})
      ensures PrefixOnly(past, |old(past)|, path + ".tmp", old(files[path + ".tmp"]))
      ensures !matches ==> At(files, path + ".tmp") == None
      ensures forall p | p != path && p != path + ".tmp" :: At(files, p) == At(old(files), p)
    {
      var tmp := path + ".tmp";
      renamed := false;
      matches := md5(files[tmp]) == md5sum;
      if !matches {
        Remove(tmp);
        return;
      }
      if renames {
        Rename(tmp, path);
        renamed := true;
      }
    }

    /** A daemon that crashes any number of times, after any step of any attempt, while a client that
        sends what is missing of `data` retries over connections that may drop: the target is never
        anything but the old one or `data`, and an OK with a rename means that it is `data`. */
    method DeliverDespiteCrashes(path: string, data: Bytes, md5: Bytes -> string, crashes: nat)
      returns (reply: Reply, ghost delivered: bool, ghost renamed: bool)
      requires Valid() && CollisionFree(md5)
      requires At(files, path + ".tmp").Some? ==> At(files, path + ".tmp").value <= data
      modifies this
      ensures Valid()
      ensures At(files, path) == At(old(files), path) || At(files, path) == Some(data)
      ensures reply.Skip? || (reply.Ok? && renamed) ==> At(files, path) == Some(data)
      ensures At(old(files), path) == Some(data) ==> reply.Skip?
      ensures delivered ==> reply.Ok?
    {
      for n := 0 to crashes
        invariant Valid()
        invariant At(files, path) == At(old(files), path) || At(files, path) == Some(data)
        invariant At(files, path + ".tmp").Some? ==> At(files, path + ".tmp").value <= data
      {
        CrashedAttempt(path, data, md5);
      }
      reply, delivered, renamed := Attempt(path, data, md5);
    }

    /** One attempt of a client that sends what the daemon says is missing. It arrives in any chunks,
        and perhaps not all of it; `delivered` says that all of it was copied. */
    method Attempt(path: string, data: Bytes, md5: Bytes -> string)
      returns (reply: Reply, ghost delivered: bool, ghost renamed: bool)
      requires Valid() && CollisionFree(md5)
      requires At(files, path + ".tmp").Some? ==> At(files, path + ".tmp").value <= data
      modifies this
      ensures Valid() && old(past) <= past
      ensures Only(past, |old(past)|, path, {At(old(files), path), Some(data)})
      ensures PrefixOnly(past, |old(past)|, path + ".tmp", data)
      ensures reply.Skip? ==> past == old(past) && files == old(files)
      ensures At(files, path) == At(old(files), path) || At(files, path) == Some(data)
      ensures reply.Skip? || (reply.Ok? && renamed) ==> At(files, path) == Some(data)
      ensures At(old(files), path) == Some(data) ==> reply.Skip?
      ensures delivered ==> reply.Ok?
    {
      var rest := data[|Part(files, path)|..];
      var chunks: seq<Bytes> := *;
      if !(Concat(chunks) <= rest) {
        chunks := [];
      }
      RestArrives(files, path, data, chunks);
      var luck: Luck := *;
      reply, delivered, renamed := HandleResume(path, |data|, md5(data), chunks, md5, luck);
      delivered := delivered && Concat(chunks) == rest;
    }

    /** The daemon crashes somewhere in an attempt and restarts on what the disk then holds. */
    method CrashedAttempt(path: string, data: Bytes, md5: Bytes -> string)
      requires Valid() && CollisionFree(md5)
      requires At(files, path + ".tmp").Some? ==> At(files, path + ".tmp").value <= data
      modifies this
      ensures Valid()
      ensures At(files, path) == At(old(files), path) || At(files, path) == Some(data)
      ensures At(files, path + ".tmp").Some? ==> At(files, path + ".tmp").value <= data
    {
      var start := |past|;
      var reply, _, _ := Attempt(path, data, md5);
      if start < |past| {
        var k: nat := *;
        if !(start <= k < |past|) {
          k := start;
        }
        assert At(past[k], path) in {At(old(files), path), Some(data)};
        files := past[k];
        past := past + [files];
      }
    }
  }

  function TempName(path: string, pid: string): (tmp: string)
    ensures tmp != path
  {
    path + ".vssh.tmp." + pid
  }

  /** The digest `RecvFile` checks: the SIZE line's, else a trailing line of 32 characters. */
  function Digest(header: Option<string>, trailer: string): Option<string> {
    if header.Some? then header
    else if |Trim(trailer)| == 32 then Some(Trim(trailer))
    else None
  }

  /** The digest on the SIZE line must match; without one, a trailing line must, if trimmed it has the 32
      characters of a digest. */
  predicate DigestMatches(header: Option<string>, trailer: string, sum: string) {
    && (header.Some? ==> header.value == sum)
    && (header.None? && |Trim(trailer)| == 32 ==> Trim(trailer) == sum)
  }

  ghost predicate Verified(content: Option<Bytes>, md5sum: string, md5: Bytes -> string) {
    content.Some? && md5(content.value) == md5sum
  }

  /** The partial file of an earlier attempt. */
  function Part(files: Files, path: string): Bytes {
    if path + ".tmp" in files then files[path + ".tmp"] else []
  }

  /** That, completed by what arrives now. */
  function Resumed(files: Files, path: string, size: int, incoming: seq<Bytes>): Bytes {
    Part(files, path) + Taken(incoming, size - |Part(files, path)|)
  }

  /** However the rest arrives, and however much of it. */
  lemma RestArrives(files: Files, path: string, data: Bytes, chunks: seq<Bytes>)
    requires Part(files, path) <= data && Concat(chunks) <= data[|Part(files, path)|..]
    ensures Resumed(files, path, |data|, chunks) == Part(files, path) + Concat(chunks) <= data
    ensures Concat(chunks) == data[|Part(files, path)|..] ==> Resumed(files, path, |data|, chunks) == data
  {
    var part := Part(files, path);
    assert part + data[|part|..] == data;
    assert Taken(chunks, |data| - |part|) == Concat(chunks);
  }

  // ----- upload, end to end -----

  /** `Sscanf("PUT %d %s")` stops the path at the first white space. */
  function PathToken(path: string): string {
    var fields := Fields(path);
    if fields == [] then "" else fields[0]
  }

  /** `SendFile`: the client's verdict on the daemon's reply. */
  function SendSucceeds(local: Bytes, reply: Reply, md5: Bytes -> string): bool {
    reply.Ok? && (reply.digest.Some? ==> reply.digest.value == md5(local))
  }

  /** The client sends a file whose size does not change meanwhile; anything may arrive. The daemon stores
      it under the first field of the path it was given. A `legacy` daemon sends no digest; the reply can
      be lost. */
  method Upload(
    remote: Disk, local: Bytes, path: string, expand: string -> string, pid: string, arrives: seq<Bytes>,
    md5: Bytes -> string, luck: Luck, legacy: bool, answered: bool)
    returns (success: bool)
    requires remote.Valid() && CollisionFree(md5)
    modifies remote
    ensures remote.Valid()
    ensures success <==>
      && answered && luck.opens && luck.copies >= |arrives| && |local| <= |Concat(arrives)| && luck.renames
      && (legacy || Taken(arrives, |local|) == local)
    ensures success && !legacy ==> At(remote.files, expand(PathToken(path))) == Some(local)
    ensures success && legacy ==> At(remote.files, expand(PathToken(path))) == Some(Taken(arrives, |local|))
    ensures !success ==>
      At(remote.files, expand(PathToken(path))) in
        {At(old(remote.files), expand(PathToken(path))), Some(Taken(arrives, |local|))}
  {
    var reply := remote.HandlePut(expand(PathToken(path)), pid, |local|, arrives, md5, luck);
    if legacy && reply.Ok? {
      reply := reply.(digest := None);
    }
    success := answered && SendSucceeds(local, reply, md5);
  }

  /** The path the daemon writes is the path the client asked for exactly when that has no
      white space. */
  lemma {:induction false} PathTokenIsPath(path: string)
    requires path != ""
    ensures PathToken(path) == path <==> SpaceFree(path)
  {
    if SpaceFree(path) {
      FieldsOfWord(path, "");
      assert path + "" == path;
    } else if Fields(path) != [] {
      FirstField(path);
    }
  }
}
