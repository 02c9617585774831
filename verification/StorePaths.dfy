/** Where entries live: key validation, shards, target and temporary names. */
module StorePaths {
  import opened Prelude
  import opened Strings

  /** Path segments below the store's directory. */
  type Path = seq<string>

  predicate IsHex(c: char) {
    '0' <= c <= '9' || 'a' <= c <= 'f'
  }

  predicate HexName(s: string, length: nat) {
    |s| == length && forall i :: 0 <= i < |s| ==> IsHex(s[i])
  }

  predicate KeyChar(c: char) {
    'A' <= c <= 'Z' || 'a' <= c <= 'z' || '0' <= c <= '9' || c == '_' || c == '-'
  }

  predicate ValidKey(key: string) {
    key != [] && forall i :: 0 <= i < |key| ==> KeyChar(key[i])
  }

  /** A process id in decimal. */
  predicate IsPid(pid: string) {
    pid != [] && forall i :: 0 <= i < |pid| ==> '0' <= pid[i] <= '9'
  }

  function ToInt32(n: int): int {
    var m := n % 0x1_0000_0000;
    if m >= 0x8000_0000 then m - 0x1_0000_0000 else m
  }

  function Hash(s: string): int {
    if s == [] then 0
    else
      var h := Hash(Front(s));
      ToInt32(ToInt32(h * 32) - h + Last(s) as int)
  }

  /** A shard number as two names of two digits. */
  function ShardNames(shard: nat): (p: (string, string))
    requires shard < 65536
    ensures HexName(p.0, 2) && HexName(p.1, 2)
  {
    ([HexDigit(shard / 4096), HexDigit(shard / 256 % 16)], [HexDigit(shard / 16 % 16), HexDigit(shard % 16)])
  }

  function ShardPath(key: string): (p: (string, string))
    ensures HexName(p.0, 2) && HexName(p.1, 2)
  {
    var h := Hash(key);
    ShardNames((if h < 0 then -h else h) % 65536)
  }

  predicate EndsWith(s: string, suffix: string) {
    |suffix| <= |s| && s[|s| - |suffix|..] == suffix
  }

  predicate JsonName(name: string) {
    EndsWith(name, ".json")
  }

  function Base(name: string): string
    requires JsonName(name)
  {
    name[..|name| - 5]
  }

  function Target(key: string): Path {
    var (ab, cd) := ShardPath(key);
    [ab, cd, key + ".json"]
  }

  function FileFor(key: string): Option<Path> {
    if ValidKey(key) then Some(Target(key)) else None
  }

  function Temp(key: string, pid: string): Path {
    var (ab, cd) := ShardPath(key);
    [ab, cd, key + ".json." + pid + ".tmp"]
  }

  /** The paths `list` looks at: a `.json` name below two directories of two hex digits. */
  predicate Listable(p: Path) {
    |p| == 3 && HexName(p[0], 2) && HexName(p[1], 2) && JsonName(p[2])
  }

  lemma TargetIsListable(key: string)
    ensures Listable(Target(key)) && Base(Target(key)[2]) == key
  {}

  lemma JsonNameEndsInN(name: string)
    ensures JsonName(name) ==> Last(name) == 'n'
  {
    assert JsonName(name) ==> Last(name) == name[|name| - 5..][4];
  }

  /** A temporary file is never listed, and is no key's target, so it is never read either. */
  lemma TempIsPrivate(key: string, pid: string, other: string)
    ensures !Listable(Temp(key, pid)) && Temp(key, pid) != Target(other)
  {
    JsonNameEndsInN(Temp(key, pid)[2]);
    assert Last(Temp(key, pid)[2]) == 'p';
    TargetIsListable(other);
  }

  /** Different keys or different processes write different temporary files. */
  lemma TempsAreDistinct(key: string, pid: string, key': string, pid': string)
    requires ValidKey(key) && ValidKey(key') && Temp(key, pid) == Temp(key', pid')
    ensures key == key' && pid == pid'
  {
    var rest, rest' := "json." + pid + ".tmp", "json." + pid' + ".tmp";
    assert Temp(key, pid)[2] == key + ['.'] + rest && Temp(key', pid')[2] == key' + ['.'] + rest';
    SplitFirst(key, '.', rest);
    SplitFirst(key', '.', rest');
    assert ([key] + Split(rest, '.'))[0] == ([key'] + Split(rest', '.'))[0];
    assert (key + ['.'] + rest)[|key| + 1..] == rest && (key' + ['.'] + rest')[|key'| + 1..] == rest';
    assert rest[5..|rest| - 4] == pid && rest'[5..|rest'| - 4] == pid';
  }
}
