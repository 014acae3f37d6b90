/**
 * Choice of the image folder to score (`get_img_keys` in
 * custom-metrics-example/image_quality.py): among the objects listed under the
 * requested prefix, take the most recently modified one, cut its key after the
 * last `/` to get its folder, and list the keys under that folder.
 *
 * The bucket is a snapshot: a sequence of objects in the order the storage
 * service lists them.
 */
module LatestFolder {
  import opened Wrappers

  /** One stored object: its key and its last-modified instant. */
  datatype StoredObject = StoredObject(key: string, lastModified: int)

  predicate StartsWith(s: string, prefix: string)
  {
    |prefix| <= |s| && s[..|prefix|] == prefix
  }

  /** Listing the bucket with a key prefix: the objects under the prefix, in listing order. */
  function ListByPrefix(bucket: seq<StoredObject>, prefix: string): (r: seq<StoredObject>)
    ensures |r| <= |bucket|
    ensures forall o :: o in r <==> o in bucket && StartsWith(o.key, prefix)
  {
    if bucket == [] then []
    else (if StartsWith(bucket[0].key, prefix) then [bucket[0]] else []) + ListByPrefix(bucket[1..], prefix)
  }

  /** Listing keeps the bucket's order: listing a concatenation lists each part in turn. */
  lemma {:induction false} ListByPrefixAppend(a: seq<StoredObject>, b: seq<StoredObject>, prefix: string)
    ensures ListByPrefix(a + b, prefix) == ListByPrefix(a, prefix) + ListByPrefix(b, prefix)
  {
    if a == [] {
      assert a + b == b;
    } else {
      var head := if StartsWith(a[0].key, prefix) then [a[0]] else [];
      assert (a + b)[0] == a[0];
      assert (a + b)[1..] == a[1..] + b;
      assert ListByPrefix(a + b, prefix) == head + ListByPrefix(a[1..] + b, prefix);
      ListByPrefixAppend(a[1..], b, prefix);
    }
  }

  /** The keys of the objects, in order. */
  function Keys(objects: seq<StoredObject>): (keys: seq<string>)
    ensures |keys| == |objects|
    ensures forall i :: 0 <= i < |objects| ==> keys[i] == objects[i].key
  {
    seq(|objects|, i requires 0 <= i < |objects| => objects[i].key)
  }

  /**
   * The position of the object that a stable sort by last-modified time, newest
   * first, puts at the front: an object with the greatest time, and among those the
   * one listed first.
   */
  function LatestIndex(objects: seq<StoredObject>): (i: nat)
    requires |objects| > 0
    ensures i < |objects|
    ensures forall j :: 0 <= j < |objects| ==> objects[j].lastModified <= objects[i].lastModified
    ensures forall j :: 0 <= j < i ==> objects[j].lastModified < objects[i].lastModified
  {
    if |objects| == 1 then 0
    else
      var j := LatestIndex(objects[1..]);
      if objects[0].lastModified >= objects[1 + j].lastModified then 0 else 1 + j
  }

  /** Only one position is newest-and-first-listed, so the choice above is the only one possible. */
  lemma LatestIndexUnique(objects: seq<StoredObject>, k: nat)
    requires k < |objects|
    requires forall j :: 0 <= j < |objects| ==> objects[j].lastModified <= objects[k].lastModified
    requires forall j :: 0 <= j < k ==> objects[j].lastModified < objects[k].lastModified
    ensures k == LatestIndex(objects)
  {
    var i := LatestIndex(objects);
    assert objects[i].lastModified == objects[k].lastModified;
  }

  /** The position of the last `/` in `key`, or -1 when there is none. */
  function LastSlash(key: string): (r: int)
    ensures -1 <= r < |key|
    ensures r >= 0 ==> key[r] == '/'
    ensures forall k :: r < k < |key| ==> key[k] != '/'
  {
    if key == [] then -1
    else if key[|key| - 1] == '/' then |key| - 1
    else LastSlash(key[..|key| - 1])
  }

  /**
   * The regular-expression substitution that replaces a final `/` followed by
   * non-`/` characters up to the end with a single `/`. Only the last `/` of a key
   * can start such a match (also when the key ends in a newline, which the pattern's
   * end anchor may stand before), so the substitution keeps the key up to and
   * including its last `/`, and leaves a key without `/` unchanged.
   */
  function FolderPrefix(key: string): (p: string)
    ensures '/' !in key ==> p == key
    ensures '/' in key ==> StartsWith(key, p) && |p| > 0 && p[|p| - 1] == '/' && '/' !in key[|p|..]
  {
    var i := LastSlash(key);
    if i < 0 then key else key[..i + 1]
  }

  lemma NoSlashAfter(key: string, n: nat)
    requires n <= |key| && '/' !in key[n..]
    ensures forall k :: n <= k < |key| ==> key[k] != '/'
  {
    forall k | n <= k < |key|
      ensures key[k] != '/'
    {
      assert key[n..][k - n] == key[k];
    }
  }

  /** Any prefix of the key that ends in `/` and leaves no `/` after it is the folder prefix. */
  lemma FolderPrefixUnique(key: string, p: string)
    requires StartsWith(key, p) && |p| > 0 && p[|p| - 1] == '/' && '/' !in key[|p|..]
    ensures FolderPrefix(key) == p
  {
    assert key[|p| - 1] == '/';
    var q := FolderPrefix(key);
    assert StartsWith(key, q) && |q| > 0 && q[|q| - 1] == '/' && '/' !in key[|q|..];
    NoSlashAfter(key, |q|);
    NoSlashAfter(key, |p|);
    assert |p| - 1 < |q| && |q| - 1 < |p|;
    assert q == key[..|q|] == key[..|p|] == p;
  }

  lemma FolderPrefixIdempotent(key: string)
    ensures FolderPrefix(FolderPrefix(key)) == FolderPrefix(key)
  {
    var p := FolderPrefix(key);
    if '/' in key {
      assert p[|p| - 1] == '/';
      FolderPrefixUnique(p, p);
    }
  }

  /**
   * `get_img_keys` over a bucket snapshot: `None` when nothing is listed under
   * `prefix` (taking the first of an empty list raises, which is logged and raised
   * again), otherwise the keys under the folder of the newest listed object.
   */
  function ImageKeys(bucket: seq<StoredObject>, prefix: string): Option<seq<string>>
  {
    var listed := ListByPrefix(bucket, prefix);
    if listed == [] then None
    else
      var latest := listed[LatestIndex(listed)];
      Some(Keys(ListByPrefix(bucket, FolderPrefix(latest.key))))
  }

  /** The newest object under `prefix`, when there is one. */
  function Latest(bucket: seq<StoredObject>, prefix: string): StoredObject
    requires ListByPrefix(bucket, prefix) != []
  {
    var listed := ListByPrefix(bucket, prefix);
    listed[LatestIndex(listed)]
  }

  lemma StartsWithOwnFolder(key: string)
    ensures StartsWith(key, FolderPrefix(key))
  {
  }

  /**
   * The listing fails exactly when no object lies under `prefix`. Otherwise the chosen
   * object is one under `prefix` with the greatest modification time, its own key is
   * among the returned keys, every returned key lies in its folder, and every key of
   * the bucket in that folder is returned.
   */
  lemma ImageKeysSpec(bucket: seq<StoredObject>, prefix: string)
    ensures ImageKeys(bucket, prefix).None? <==> forall o :: o in bucket ==> !StartsWith(o.key, prefix)
    ensures ImageKeys(bucket, prefix).Some? ==>
            var latest := Latest(bucket, prefix);
            var folder := FolderPrefix(latest.key);
            latest in bucket && StartsWith(latest.key, prefix) &&
            (forall o :: o in bucket && StartsWith(o.key, prefix) ==> o.lastModified <= latest.lastModified) &&
            latest.key in ImageKeys(bucket, prefix).value &&
            (forall k :: k in ImageKeys(bucket, prefix).value ==> StartsWith(k, folder)) &&
            (forall o :: o in bucket && StartsWith(o.key, folder) ==> o.key in ImageKeys(bucket, prefix).value)
  {
    var listed := ListByPrefix(bucket, prefix);
    if listed == [] {
      forall o | o in bucket
        ensures !StartsWith(o.key, prefix)
      {
        assert o !in listed;
      }
    } else {
      assert listed[0] in listed;
      var latest := Latest(bucket, prefix);
      var folder := FolderPrefix(latest.key);
      var inFolder := ListByPrefix(bucket, folder);
      forall o | o in bucket && StartsWith(o.key, prefix)
        ensures o.lastModified <= latest.lastModified
      {
        assert o in listed;
        var j :| 0 <= j < |listed| && listed[j] == o;
      }
      StartsWithOwnFolder(latest.key);
      assert latest in inFolder;
      var j :| 0 <= j < |inFolder| && inFolder[j] == latest;
      assert Keys(inFolder)[j] == latest.key;
      forall k | k in Keys(inFolder)
        ensures StartsWith(k, folder)
      {
        var i :| 0 <= i < |inFolder| && Keys(inFolder)[i] == k;
        assert inFolder[i] in inFolder;
      }
      WholeFolderListed(bucket, folder);
    }
  }

  /** Every object of the bucket that lies in `folder` has its key in the second listing. */
  lemma WholeFolderListed(bucket: seq<StoredObject>, folder: string)
    ensures forall o :: o in bucket && StartsWith(o.key, folder) ==> o.key in Keys(ListByPrefix(bucket, folder))
  {
    var inFolder := ListByPrefix(bucket, folder);
    forall o | o in bucket && StartsWith(o.key, folder)
      ensures o.key in Keys(inFolder)
    {
      assert o in inFolder;
      var j :| 0 <= j < |inFolder| && inFolder[j] == o;
      assert Keys(inFolder)[j] == o.key;
    }
  }

  /** When the requested prefix is a folder (ends in `/`), the chosen folder lies inside it. */
  lemma FolderInsideRequestedFolder(bucket: seq<StoredObject>, prefix: string)
    requires |prefix| > 0 && prefix[|prefix| - 1] == '/'
    requires ListByPrefix(bucket, prefix) != []
    ensures StartsWith(FolderPrefix(Latest(bucket, prefix).key), prefix)
  {
    var listed := ListByPrefix(bucket, prefix);
    var latest := Latest(bucket, prefix);
    assert latest in listed;
    var key := latest.key;
    assert key[|prefix| - 1] == '/';
    var i := LastSlash(key);
    assert i >= |prefix| - 1;
    assert FolderPrefix(key) == key[..i + 1];
    assert key[..i + 1][..|prefix|] == key[..|prefix|];
  }
}
