/** Keys of the local cache store: `"<device>/<key>"` in lower case. */
module CacheKeys {
  // Lower-casing is modelled for the ASCII letters.
  function LowerChar(c: char): (r: char)
    ensures r == '/' <==> c == '/'
  {
    if 'A' <= c <= 'Z' then (c as int + 32) as char else c
  }

  function Lower(s: string): (r: string)
    ensures |r| == |s|
    ensures forall i :: 0 <= i < |s| ==> r[i] == LowerChar(s[i])
  {
    seq(|s|, i requires 0 <= i < |s| => LowerChar(s[i]))
  }

  lemma LowerTwice(s: string)
    ensures Lower(Lower(s)) == Lower(s)
  {
  }

  predicate NoSlash(s: string) {
    '/' !in s
  }

  function DbKey(dev: string, key: string): string {
    Lower(dev + "/" + key)
  }

  /** `dbkey.rsplit("/", 1)[-1]`: the part after the last slash. */
  function LastPart(s: string): string {
    if NoSlash(s) then s else LastPart(s[1..])
  }

  /** Device names hold no slash, so a key of the store tells its device and subkey. */
  lemma DbKeyInjective(d1: string, k1: string, d2: string, k2: string)
    requires NoSlash(d1) && NoSlash(d2)
    ensures DbKey(d1, k1) == DbKey(d2, k2) <==> Lower(d1) == Lower(d2) && Lower(k1) == Lower(k2)
  {
    var a, b := DbKey(d1, k1), DbKey(d2, k2);
    DbKeyParts(d1, k1);
    DbKeyParts(d2, k2);
    if a == b {
      FirstSlash(Lower(d1), Lower(k1), Lower(d2), Lower(k2));
    }
  }

  lemma DbKeyParts(dev: string, key: string)
    ensures DbKey(dev, key) == Lower(dev) + "/" + Lower(key)
    ensures NoSlash(dev) ==> NoSlash(Lower(dev))
  {
  }

  lemma FirstSlash(d1: string, k1: string, d2: string, k2: string)
    requires NoSlash(d1) && NoSlash(d2)
    requires d1 + "/" + k1 == d2 + "/" + k2
    ensures d1 == d2 && k1 == k2
  {
    var s, t := d1 + "/" + k1, d2 + "/" + k2;
    assert s[|d1|] == '/' && t[|d2|] == '/';
    assert forall i :: 0 <= i < |d1| ==> s[i] == d1[i] && s[i] != '/';
    assert forall i :: 0 <= i < |d2| ==> t[i] == d2[i] && t[i] != '/';
    assert |d1| == |d2|;
    assert s[..|d1|] == d1 && t[..|d2|] == d2;
    assert s[|d1| + 1..] == k1 && t[|d2| + 1..] == k2;
  }

  /** A key belongs to a device exactly if it starts with the device name and a slash. */
  lemma PrefixIsDevice(dev: string, d: string, key: string)
    requires NoSlash(dev) && NoSlash(d)
    ensures Lower(dev + "/") <= DbKey(d, key) <==> Lower(dev) == Lower(d)
  {
    DbKeyParts(d, key);
    var p, s := Lower(dev + "/"), Lower(d) + "/" + Lower(key);
    assert p == Lower(dev) + "/";
    if p <= s {
      assert s == Lower(dev) + "/" + s[|p|..];
      FirstSlash(Lower(dev), s[|p|..], Lower(d), Lower(key));
    }
  }

  lemma {:induction false} LastPartOfKey(dev: string, key: string)
    ensures LastPart(dev + "/" + key) == LastPart(key)
    decreases |dev|
  {
    var s := dev + "/" + key;
    assert s[|dev|] == '/';
    if dev == "" {
      assert s[1..] == key;
    } else {
      assert s[1..] == dev[1..] + "/" + key;
      assert s[1..][|dev| - 1] == '/';
      LastPartOfKey(dev[1..], key);
    }
  }

  lemma LastPartOfDbKey(dev: string, key: string)
    ensures LastPart(DbKey(dev, key)) == LastPart(Lower(key))
  {
    DbKeyParts(dev, key);
    LastPartOfKey(Lower(dev), Lower(key));
  }
}
