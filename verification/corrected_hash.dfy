/** `hash` as written lets one `hashCode()` value through with a negative
    bucket: `Math.abs(Integer.MIN_VALUE)` is `Integer.MIN_VALUE`, and the
    truncating `%` keeps the sign, so `processItem` passes the virtual-part
    test and indexes the bitmap below 0. This module exhibits the input and
    gives the evidently intended hash, the magnitude taken without overflow. */
module CorrectedHash {
  import opened JavaInt
  import opened VirtualFilter

  /** Java's `String.hashCode()` for strings whose characters all lie in the
      Basic Multilingual Plane: `31 * h + c` over the characters, in `int`
      arithmetic. Java sums over UTF-16 code units, so a character outside
      that plane, one code unit pair in Java, differs here. It serves only to
      name a concrete key whose hash code is `Integer.MIN_VALUE`; the filter
      itself takes the hash code as a parameter. */
  function StringHashCode(s: string): Int32
    decreases |s|
  {
    if |s| == 0 then 0
    else Wrap(31 * StringHashCode(s[..|s| - 1]) + s[|s| - 1] as int)
  }

  /** The configuration `main` builds. */
  const MainConfig: Config := Config(1000000, 1500000, 0.01)

  /** The pair ("a", "HVDABCW") has key hash code `Integer.MIN_VALUE`; under
      `main`'s configuration its bucket is -983648, which passes the test
      `hashValue >= realSize` and makes `processItem` throw at the bitmap
      access, whatever the filter has seen before. */
  lemma MinValueKeyEscapes(s: State, r: real)
    requires Inv(MainConfig, s)
    ensures Hash(MIN_VALUE, MainConfig.totalSize) == -983648
    ensures ProcessItem(MainConfig, s, StringHashCode, "a", "HVDABCW", r) == IndexOutOfBounds(-983648)
  {
    KeyHashCode();
  }

  /** The key of ("a", "HVDABCW") has Java hash code `Integer.MIN_VALUE`,
      computed one loop iteration at a time. */
  lemma KeyHashCode()
    ensures StringHashCode(ItemKey("a", "HVDABCW")) == MIN_VALUE
  {
    assert ItemKey("a", "HVDABCW") == "a,HVDABCW";
    HashAppend("", 'a', 0, 97);
    assert "" + ['a'] == "a";
    HashAppend("a", ',', 97, 3051);
    assert "a" + [','] == "a,";
    HashAppend("a,", 'H', 3051, 94653);
    assert "a," + ['H'] == "a,H";
    HashAppend("a,H", 'V', 94653, 2934329);
    assert "a,H" + ['V'] == "a,HV";
    HashAppend("a,HV", 'D', 2934329, 90964267);
    assert "a,HV" + ['D'] == "a,HVD";
    HashAppend("a,HVD", 'A', 90964267, -1475074954);
    assert "a,HVD" + ['A'] == "a,HVDA";
    HashAppend("a,HVDA", 'B', -1475074954, 1517316748);
    assert "a,HVDA" + ['B'] == "a,HVDAB";
    HashAppend("a,HVDAB", 'C', 1517316748, -207821001);
    assert "a,HVDAB" + ['C'] == "a,HVDABC";
    HashAppend("a,HVDABC", 'W', -207821001, MIN_VALUE);
    assert "a,HVDABC" + ['W'] == "a,HVDABCW";
  }

  /** One iteration of the hash loop, with its result given. */
  lemma HashAppend(p: string, ch: char, hp: int, h: int)
    requires StringHashCode(p) == hp
    requires h == Wrap(31 * hp + ch as int)
    ensures StringHashCode(p + [ch]) == h
  {
    assert (p + [ch])[..|p|] == p;
  }

  /** The evidently intended bucket: the magnitude of the hash code, computed
      without overflow, reduced modulo `totalSize`. It always lies in the hash
      space and agrees with `hash` as written on every other hash code. */
  function FixedHash(hashCode: Int32, totalSize: int): (h: int)
    requires 0 < totalSize <= MAX_VALUE
    ensures 0 <= h < totalSize
    ensures hashCode != MIN_VALUE ==> h == Hash(hashCode, totalSize)
  {
    Mag(hashCode) % totalSize
  }

  /** `processItem` with the intended hash: it never throws, and it behaves as
      written for every item whose hash code is not `Integer.MIN_VALUE`. */
  function ProcessItemFixed(c: Config, s: State, hashCode: string -> Int32,
                            source: string, destination: string, r: real): (o: Outcome)
    requires c.WellFormed() && Inv(c, s)
    ensures o.Done? && Inv(c, o.next)
    ensures hashCode(ItemKey(source, destination)) != MIN_VALUE ==>
              o == ProcessItem(c, s, hashCode, source, destination, r)
  {
    Step(c, s, FixedHash(hashCode(ItemKey(source, destination)), c.totalSize), r)
  }
}
