/** The names under which uploads are kept among the objects of a bucket: why they never
    collide, and why listing by prefix finds just the parts of one upload. */
module R2Keys {
  import opened Common
  import opened Text
  import opened R2Multipart

  function Decimal(n: nat): (s: string)
    ensures s != "" && AllDigits(s) && ':' !in s
  {
    var last := [(n % 10) as char + '0'];
    if n < 10 then last else Decimal(n / 10) + last
  }

  function PartPrefix(key: string, id: string): string {
    INTERNAL_PREFIX + (":multipart:" + (id + (":" + (key + ":"))))
  }

  // The name of an upload's marker, or of one of its parts.
  function NameOf(key: string, id: string, part: Option<nat>): string {
    PartPrefix(key, id) + if part.None? then "index" else Decimal(part.value)
  }

  // The name in the storage; an object goes by its own key.
  function BuildKey(k: StorageKey): string {
    match k
    case Object(key) => key
    case Index(u) => NameOf(u.key, u.id, None)
    case PartKey(u, number) => NameOf(u.key, u.id, Some(number))
  }

  lemma {:induction false} DecimalNumber(n: nat)
    ensures Number(Decimal(n)) == n
  {
    if n >= 10 {
      DecimalNumber(n / 10);
    }
    var s := Decimal(n);
    assert s[..|s| - 1] == if n < 10 then "" else Decimal(n / 10);
  }

  lemma DecimalInjective(m: nat, n: nat)
    requires Decimal(m) == Decimal(n)
    ensures m == n
  {
    DecimalNumber(m);
    DecimalNumber(n);
  }

  // Texts without a colon are told apart by what comes before the first colon, and by what
  // comes after the last.
  lemma {:induction false} FirstColon(a: string, b: string, x: string, y: string)
    requires ':' !in a && ':' !in b && a + (":" + x) <= b + (":" + y)
    ensures a == b && x <= y
    decreases |a|
  {
    var s, t := a + (":" + x), b + (":" + y);
    assert s[0] == t[0] && (a == "" <==> s[0] == ':') && (b == "" <==> t[0] == ':');
    assert s[1..] <= t[1..];
    if a != "" {
      assert s[1..] == a[1..] + (":" + x) && t[1..] == b[1..] + (":" + y);
      FirstColon(a[1..], b[1..], x, y);
    } else {
      assert s[1..] == x && t[1..] == y;
    }
  }

  lemma {:induction false} LastColon(a: string, b: string, x: string, y: string)
    requires ':' !in x && ':' !in y && a + (":" + x) == b + (":" + y)
    ensures a == b && x == y
    decreases |x|
  {
    var s, t := a + (":" + x), b + (":" + y);
    var last := |s| - 1;
    assert s[last] == t[last] && (x == "" <==> s[last] == ':') && (y == "" <==> t[last] == ':');
    if x != "" {
      assert s[..last] == a + (":" + x[..|x| - 1]) && t[..last] == b + (":" + y[..|y| - 1]);
      LastColon(a, b, x[..|x| - 1], y[..|y| - 1]);
    } else {
      assert s[..last] == a && t[..last] == b;
    }
  }

  // What follows the name of the upload: the part's number, or a word that is not one.
  function Tail(k: StorageKey): string
    requires !k.Object?
  {
    if k.Index? then "index" else Decimal(k.number)
  }

  lemma TailExact(k: StorageKey)
    requires !k.Object?
    ensures BuildKey(k) == PartPrefix(k.upload.key, k.upload.id) + Tail(k) && ':' !in Tail(k) && Tail(k) != ""
    ensures k.PartKey? ==> Tail(k)[0] != 'i'
  {
  }

  // The parts of a prefixed name, one by one.
  lemma Unfold(key: string, id: string, tail: string)
    ensures PartPrefix(key, id) + tail == (INTERNAL_PREFIX + ":multipart:") + (id + (":" + (key + (":" + tail))))
    ensures StartsWith(PartPrefix(key, id) + tail, INTERNAL_PREFIX)
  {
  }

  lemma DropPrefix(p: string, x: string, y: string)
    requires p + x <= p + y
    ensures x <= y
  {
    assert x == (p + x)[|p|..] && y == (p + y)[|p|..];
  }

  // Only what belongs to an upload of this id is found under the prefix of its parts.
  lemma FoundByPrefix(k: StorageKey, u: Upload)
    requires k.Object? ==> !StartsWith(k.key, INTERNAL_PREFIX)
    requires StartsWith(BuildKey(k), PartPrefix(u.key, u.id))
    ensures !k.Object? && k.upload.id == u.id
  {
    var p := INTERNAL_PREFIX + ":multipart:";
    Unfold(u.key, u.id, "");
    assert PartPrefix(u.key, u.id) + "" == PartPrefix(u.key, u.id);
    if !k.Object? {
      TailExact(k);
      Unfold(k.upload.key, k.upload.id, Tail(k));
      DropPrefix(p, u.id + (":" + (u.key + (":" + ""))), k.upload.id + (":" + (k.upload.key + (":" + Tail(k)))));
      FirstColon(u.id, k.upload.id, u.key + (":" + ""), k.upload.key + (":" + Tail(k)));
    }
  }

  // Names tell apart all that is stored.
  lemma BuildKeyInjective(k: StorageKey, k': StorageKey)
    requires k.Object? ==> !StartsWith(k.key, INTERNAL_PREFIX)
    requires k'.Object? ==> !StartsWith(k'.key, INTERNAL_PREFIX)
    requires BuildKey(k) == BuildKey(k')
    ensures k == k'
  {
    if !k.Object? {
      TailExact(k);
      Unfold(k.upload.key, k.upload.id, Tail(k));
    }
    if !k'.Object? {
      TailExact(k');
      Unfold(k'.upload.key, k'.upload.id, Tail(k'));
    }
    if !k.Object? && !k'.Object? {
      SameUpload(k, k');
      if k.PartKey? && k'.PartKey? {
        DecimalInjective(k.number, k'.number);
      }
    }
  }

  lemma SameUpload(k: StorageKey, k': StorageKey)
    requires !k.Object? && !k'.Object? && BuildKey(k) == BuildKey(k')
    ensures k.upload == k'.upload && Tail(k) == Tail(k')
  {
    var p, u, v := INTERNAL_PREFIX + ":multipart:", k.upload, k'.upload;
    TailExact(k);
    TailExact(k');
    Unfold(u.key, u.id, Tail(k));
    Unfold(v.key, v.id, Tail(k'));
    DropPrefix(p, u.id + (":" + (u.key + (":" + Tail(k)))), v.id + (":" + (v.key + (":" + Tail(k')))));
    FirstColon(u.id, v.id, u.key + (":" + Tail(k)), v.key + (":" + Tail(k')));
    LastColon(u.key, v.key, Tail(k), Tail(k'));
  }

  // --- Any text for an id --------------------------------------------------------------------------

  // What a key and an id of any kind name is kept under the names of the upload meant.
  lemma PrefixMeant(key: string, id: string)
    ensures PartPrefix(key, id) == PartPrefix(UploadOf(key, id).key, UploadOf(key, id).id)
  {
    var n, u := Colon(id), UploadOf(key, id);
    if n < |id| {
      assert id == id[..n] + (":" + id[n + 1..]);
      assert id + (":" + (key + ":")) == u.id + (":" + (u.key + ":"));
    }
  }

  lemma PrefixInjective(u: Upload, v: Upload)
    requires PartPrefix(u.key, u.id) == PartPrefix(v.key, v.id)
    ensures u == v
  {
    BuildKeyInjective(Index(u), Index(v));
  }

  // Two pairs of a key and an id share their names exactly if they mean the same upload.
  lemma PrefixExact(key: string, id: string, key': string, id': string)
    ensures PartPrefix(key, id) == PartPrefix(key', id') <==> UploadOf(key, id) == UploadOf(key', id')
  {
    PrefixMeant(key, id);
    PrefixMeant(key', id');
    if PartPrefix(key, id) == PartPrefix(key', id') {
      PrefixInjective(UploadOf(key, id), UploadOf(key', id'));
    }
  }

  function KeyOf(u: Upload, part: Option<nat>): StorageKey {
    if part.None? then Index(u) else PartKey(u, part.value)
  }

  // A name says which upload, and which of its parts, is meant, whatever text the id is.
  lemma NameExact(key: string, id: string, part: Option<nat>, key': string, id': string, part': Option<nat>)
    ensures NameOf(key, id, part) == BuildKey(KeyOf(UploadOf(key, id), part))
    ensures NameOf(key, id, part) == NameOf(key', id', part') <==> UploadOf(key, id) == UploadOf(key', id') && part == part'
  {
    PrefixMeant(key, id);
    PrefixMeant(key', id');
    if NameOf(key, id, part) == NameOf(key', id', part') {
      BuildKeyInjective(KeyOf(UploadOf(key, id), part), KeyOf(UploadOf(key', id'), part'));
    }
  }

  // An id without a colon shares its names with no other upload, and any other id, which
  // resuming an upload lets through, shares them with an upload that was made under an id
  // without a colon for another key.
  lemma ColonConfuses(key: string, id: string)
    ensures (exists u: Upload :: (u.key, u.id) != (key, id) && PartPrefix(u.key, u.id) == PartPrefix(key, id)) <==> ':' in id
  {
    UploadOfExact(key, id);
    PrefixMeant(key, id);
    forall u: Upload ensures PartPrefix(u.key, u.id) == PartPrefix(key, id) <==> u == UploadOf(key, id) {
      PrefixExact(u.key, u.id, key, id);
      UploadOfExact(u.key, u.id);
    }
  }

  // A listing under the prefix, less the marker itself, is exactly the parts of the upload
  // meant.
  lemma ListingExact(s: State, key: string, id: string, k: StorageKey)
    requires UploadsKnown(s) && KeysApart(s.store) && Index(UploadOf(key, id)) in s.store && k in s.store
    ensures StartsWith(BuildKey(k), PartPrefix(key, id)) && BuildKey(k) != NameOf(key, id, None) <==> IsPartOf(k, UploadOf(key, id))
  {
    var u := UploadOf(key, id);
    PrefixMeant(key, id);
    if StartsWith(BuildKey(k), PartPrefix(u.key, u.id)) {
      FoundByPrefix(k, u);
      assert Index(k.upload) in s.store;
    }
    if IsPartOf(k, u) && BuildKey(k) == BuildKey(Index(u)) {
      BuildKeyInjective(k, Index(u));
    }
  }
}
