/** The download recorder: it watches a response body go by in chunks of any size, keeps only a short tail and a
    bounded head, and still decides as if it had searched the whole body. */
module Recorder {
  import opened Assets

  newtype byte = x: int | 0 <= x < 256

  type Bytes = seq<byte>

  const JUDGED_BYTES: nat := 4096

  // ----- searching

  predicate FoundAt(body: Bytes, word: Bytes, i: nat) {
    i + |word| <= |body| && body[i..i + |word|] == word
  }

  ghost predicate Contains(body: Bytes, word: Bytes) {
    exists i: nat :: FoundAt(body, word, i)
  }

  method Search(body: Bytes, word: Bytes) returns (found: bool)
    ensures found <==> Contains(body, word)
  {
    var i := 0;
    while i + |word| <= |body|
      invariant forall k: nat :: k < i ==> !FoundAt(body, word, k)
    {
      if body[i..i + |word|] == word {
        assert FoundAt(body, word, i);
        return true;
      }
      i := i + 1;
    }
    return false;
  }

  /** At most the last n bytes. */
  function LastBytes(body: Bytes, n: nat): Bytes {
    if |body| > n then body[|body| - n..] else body
  }

  lemma FoundFurtherOn(front: Bytes, body: Bytes, word: Bytes, i: nat)
    ensures FoundAt(body, word, i) <==> FoundAt(front + body, word, |front| + i)
  {
    if i + |word| <= |body| {
      assert (front + body)[|front| + i..|front| + i + |word|] == body[i..i + |word|];
    }
  }

  lemma FoundBefore(body: Bytes, chunk: Bytes, word: Bytes, i: nat)
    requires i + |word| <= |body|
    ensures FoundAt(body + chunk, word, i) <==> FoundAt(body, word, i)
  {
    assert (body + chunk)[i..i + |word|] == body[i..i + |word|];
  }

  /** Once a word has gone by it stays found. */
  lemma StaysFound(body: Bytes, chunk: Bytes, word: Bytes)
    requires Contains(body, word)
    ensures Contains(body + chunk, word)
  {
    var i: nat :| FoundAt(body, word, i);
    FoundBefore(body, chunk, word, i);
  }

  /** A word new to the body ends in the chunk, so all of it lies in the chunk and the tail kept before it. */
  lemma TailSuffices(body: Bytes, chunk: Bytes, word: Bytes, keep: nat)
    requires !Contains(body, word) && |word| <= keep + 1
    ensures Contains(LastBytes(body, keep) + chunk, word) <==> Contains(body + chunk, word)
  {
    var tail := LastBytes(body, keep);
    var front := body[..|body| - |tail|];
    assert body == front + tail;
    assert body + chunk == front + (tail + chunk);
    if i: nat :| FoundAt(tail + chunk, word, i) {
      FoundFurtherOn(front, tail + chunk, word, i);
      assert FoundAt(body + chunk, word, |front| + i);
    }
    if i: nat :| FoundAt(body + chunk, word, i) {
      if i + |word| <= |body| {
        FoundBefore(body, chunk, word, i);
        assert Contains(body, word);
      } else {
        FoundFurtherOn(front, tail + chunk, word, i - |front|);
        assert FoundAt(tail + chunk, word, i - |front|);
      }
    }
  }

  lemma TailOfMore(body: Bytes, chunk: Bytes, keep: nat)
    ensures LastBytes(LastBytes(body, keep) + chunk, keep) == LastBytes(body + chunk, keep)
  {
  }

  // ----- what is recorded

  datatype Fetch =
    | Stored(body: Bytes, size: nat, refusal: string)
    | Withheld
    | Stopped

  function Min(a: nat, b: nat): nat {
    if a < b then a else b
  }

  function FirstBytes(body: Bytes): Bytes {
    body[..Min(|body|, JUDGED_BYTES + 1)]
  }

  /** The secret the request carried, with its query-escaped form, which is never shorter. */
  datatype Secret = Secret(plain: Bytes, escaped: Bytes)

  ghost predicate Echoes(body: Bytes, s: Secret) {
    s.plain != [] && (Contains(body, s.plain) || Contains(body, s.escaped))
  }

  /** The record a search of the whole body calls for. A body over 4,096 bytes goes unjudged. */
  ghost function WholeBodyRecord(s: Secret, judge: Option<Bytes -> string>, body: Bytes, complete: bool): Fetch {
    if Echoes(body, s) then Withheld
    else if !complete then Stopped
    else Stored(body, |body|, if judge.Some? && |body| <= JUDGED_BYTES then judge.value(body) else "")
  }

  class Recorder {
    const secret: Secret
    const judge: Option<Bytes -> string>
    var tail: Bytes
    var leaked: bool
    var head: Bytes
    var size: nat
    var kept: Bytes
    var done: bool
    var records: seq<Fetch>
    /** Everything read before the record was made. */
    ghost var seen: Bytes
    /** Whether the record was made at the body's end. */
    ghost var complete: bool

    ghost predicate Valid()
      reads this
    {
      && |secret.escaped| >= |secret.plain|
      && (leaked <==> Echoes(seen, secret))
      && (secret.plain != [] && !leaked ==> tail == LastBytes(seen, |secret.escaped| - 1))
      && (judge.Some? ==> head == FirstBytes(seen))
      && size == |seen| && kept == seen
      && records == if done then [WholeBodyRecord(secret, judge, seen, complete)] else []
    }

    constructor (secret: Secret, judge: Option<Bytes -> string>)
      requires |secret.escaped| >= |secret.plain|
      ensures Valid() && !done && seen == []
      ensures this.secret == secret && this.judge == judge
    {
      this.secret, this.judge := secret, judge;
      tail, leaked, head, size, kept := [], false, [], 0, [];
      done, records, seen, complete := false, [], [], false;
    }

    /** One read from the body: the bytes it returned and whether the body ended with them. */
    method Read(chunk: Bytes, ended: bool)
      requires Valid()
      modifies this
      ensures Valid()
      ensures seen == old(seen) + if old(done) then [] else chunk
      ensures done == (old(done) || ended)
      ensures complete == if old(done) then old(complete) else ended
      ensures old(done) ==> records == old(records)
    {
      if chunk != [] && !done {
        KeepHead(chunk);
        if secret.plain != [] && !leaked {
          Watch(chunk);
        } else {
          ghost var before := seen;
          seen := seen + chunk;
          if leaked {
            EchoesStay(before, chunk, secret);
          }
        }
        size := size + |chunk|;
        kept := kept + chunk;
      }
      if !done {
        complete := ended;
      }
      if ended && !done {
        Finish(true);
      }
    }

    /** Keeps the chunk's part of the body's first bytes, one more than a judge is shown. */
    method KeepHead(chunk: Bytes)
      requires judge.Some? ==> head == FirstBytes(seen)
      modifies this`head
      ensures judge.Some? ==> head == FirstBytes(seen + chunk)
    {
      if judge.Some? && |head| <= JUDGED_BYTES {
        head := head + chunk[..Min(|chunk|, JUDGED_BYTES + 1 - |head|)];
      }
    }

    /** Searches the tail and the chunk together, and keeps a tail one byte shorter than the escaped secret. */
    method Watch(chunk: Bytes)
      requires |secret.escaped| >= |secret.plain| > 0 && !leaked
      requires !Echoes(seen, secret) && tail == LastBytes(seen, |secret.escaped| - 1)
      modifies this`tail, this`leaked, this`seen
      ensures seen == old(seen) + chunk
      ensures leaked <==> Echoes(seen, secret)
      ensures tail == LastBytes(seen, |secret.escaped| - 1)
    {
      var joined := tail + chunk;
      var keep := |secret.escaped| - 1;
      TailSuffices(seen, chunk, secret.plain, keep);
      TailSuffices(seen, chunk, secret.escaped, keep);
      TailOfMore(seen, chunk, keep);
      leaked := Search(joined, secret.plain);
      if !leaked {
        leaked := Search(joined, secret.escaped);
      }
      if |joined| > keep {
        joined := joined[|joined| - keep..];
      }
      tail := joined;
      seen := seen + chunk;
    }

    method Finish(whole: bool)
      requires !done && records == [] && kept == seen && size == |seen|
      requires leaked <==> Echoes(seen, secret)
      requires judge.Some? ==> head == FirstBytes(seen)
      modifies this`done, this`records
      ensures done && records == [WholeBodyRecord(secret, judge, seen, whole)]
    {
      done := true;
      if leaked {
        records := records + [Withheld];
      } else if whole {
        var refusal := "";
        if judge.Some? && |head| <= JUDGED_BYTES {
          assert head == seen;
          refusal := judge.value(head);
        }
        records := records + [Stored(kept, size, refusal)];
      } else {
        records := records + [Stopped];
      }
    }

    method Close()
      requires Valid()
      modifies this
      ensures Valid() && done && seen == old(seen)
      ensures complete == (old(done) && old(complete))
      ensures old(done) ==> records == old(records)
    {
      if !done {
        complete := false;
        Finish(false);
      }
    }
  }

  lemma EchoesStay(body: Bytes, chunk: Bytes, s: Secret)
    requires Echoes(body, s)
    ensures Echoes(body + chunk, s)
  {
    if Contains(body, s.plain) {
      StaysFound(body, chunk, s.plain);
    } else {
      StaysFound(body, chunk, s.escaped);
    }
  }

  function Joined(chunks: seq<Bytes>): Bytes {
    if chunks == [] then [] else Joined(chunks[..|chunks| - 1]) + chunks[|chunks| - 1]
  }

  /** A body read in any chunks and then closed, its end reached or not, is recorded once, as a search of the whole
      body would have it. */
  method Drain(secret: Secret, judge: Option<Bytes -> string>, chunks: seq<Bytes>, ends: bool)
    returns (records: seq<Fetch>)
    requires |secret.escaped| >= |secret.plain|
    ensures records == [WholeBodyRecord(secret, judge, Joined(chunks), ends)]
  {
    var r := new Recorder(secret, judge);
    for k := 0 to |chunks|
      invariant r.Valid() && !r.done && r.seen == Joined(chunks[..k])
      invariant r.secret == secret && r.judge == judge && fresh(r)
    {
      assert chunks[..k + 1][..k] == chunks[..k];
      r.Read(chunks[k], false);
    }
    assert chunks[..|chunks|] == chunks;
    r.Read([], ends);
    assert r.seen == Joined(chunks);
    r.Close();
    return r.records;
  }
}
