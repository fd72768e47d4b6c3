/**
  The string keys of the metadata store: '#'-free fields joined by "###" behind a family prefix.
 */
module MetaKeys {
  import opened Strings

  const KEY_SEPARATOR := "###"
  const UUID_CHANGED_TAG := 0x03000004

  /** A family prefix and the fields behind it. */
  type Parts = seq<string>

  predicate HashFree(s: string) {
    '#' !in s
  }

  ghost predicate AllHashFree(parts: Parts) {
    forall i | 0 <= i < |parts| :: HashFree(parts[i])
  }

  /** GetKey, for every family: prefix.append(SEPARATOR).append(field) for each field. */
  function KeyOf(parts: Parts): string
    requires parts != []
  {
    Join(parts[0], KEY_SEPARATOR, parts[1..])
  }

  function PrefixOf(parts: Parts): string
    requires parts != []
  {
    KeyOf(parts) + KEY_SEPARATOR
  }

  // ---- Keys tell their fields apart -------------------------------------------------------------

  /** A prefix query finds the key exactly when the queried fields are a proper prefix of the key's. */
  lemma {:induction false} PrefixFindsExtensions(fs: Parts, gs: Parts)
    requires fs != [] && gs != [] && AllHashFree(fs) && AllHashFree(gs)
    ensures PrefixOf(fs) <= KeyOf(gs) <==> fs < gs
    decreases |fs|
  {
    var f, g, sep := fs[0], gs[0], KEY_SEPARATOR;
    var fRest := if |fs| == 1 then "" else PrefixOf(fs[1..]);
    var gRest := if |gs| == 1 then "" else sep + KeyOf(gs[1..]);
    PrefixFront(fs);
    KeyFront(gs);
    FirstFieldsAgree(f, g, fRest, gRest);
    if |gs| > 1 {
      if |fs| > 1 {
        PrefixFindsExtensions(fs[1..], gs[1..]);
      }
      assert fs == [f] + fs[1..] && gs == [g] + gs[1..];
      assert gRest[|sep|..] == KeyOf(gs[1..]);
    }
    PrefixCons(fs, gs);
  }

  lemma PrefixCons(fs: Parts, gs: Parts)
    requires fs != [] && gs != []
    ensures fs < gs <==> fs[0] == gs[0] && |gs| > 1 && (|fs| == 1 || fs[1..] < gs[1..])
  {
    if fs[0] == gs[0] && |fs| > 1 && fs[1..] < gs[1..] {
      assert fs == [fs[0]] + fs[1..] && gs == [gs[0]] + gs[1..];
    }
  }

  lemma KeyFront(gs: Parts)
    requires gs != []
    ensures KeyOf(gs) == gs[0] + (if |gs| == 1 then "" else KEY_SEPARATOR + KeyOf(gs[1..]))
  {
    if |gs| > 1 {
      JoinFront(gs[0], KEY_SEPARATOR, gs[1..]);
    }
  }

  lemma PrefixFront(fs: Parts)
    requires fs != []
    ensures PrefixOf(fs) == fs[0] + KEY_SEPARATOR + (if |fs| == 1 then "" else PrefixOf(fs[1..]))
  {
    KeyFront(fs);
  }

  /** The first '#' tells how long a field is. */
  lemma FieldLengthsAgree(f: string, g: string, x: string, y: string)
    requires HashFree(f) && HashFree(g) && (y == "" || KEY_SEPARATOR <= y)
    requires f + KEY_SEPARATOR + x <= g + y
    ensures |f| == |g| && y != ""
  {
    var a, b := f + KEY_SEPARATOR + x, g + y;
    assert a[|f|] == '#' && b[|f|] == '#';
    assert forall i | 0 <= i < |f| :: a[i] == f[i] != '#';
    assert forall i | 0 <= i < |g| :: b[i] == g[i] != '#';
    assert y != "" ==> b[|g|] == y[0] == '#';
  }

  /** '#'-free strings in front of a separator, or of nothing, agree if one is a prefix of the other. */
  lemma FirstFieldsAgree(f: string, g: string, x: string, y: string)
    requires HashFree(f) && HashFree(g) && (y == "" || KEY_SEPARATOR <= y)
    ensures f + KEY_SEPARATOR + x <= g + y <==> f == g && y != "" && x <= y[|KEY_SEPARATOR|..]
  {
    var a, b, sep := f + KEY_SEPARATOR + x, g + y, KEY_SEPARATOR;
    if a <= b {
      FieldLengthsAgree(f, g, x, y);
      assert f == a[..|f|] == b[..|f|] == g;
      assert a[|f|..] == sep + x && b[|f|..] == y;
      assert x == (sep + x)[|sep|..] && (sep + x) <= y;
    }
    if f == g && y != "" && x <= y[|sep|..] {
      assert y == sep + y[|sep|..];
      assert b == f + sep + y[|sep|..];
    }
  }

  /** Equal keys have equal families and fields, empty ones included. */
  lemma KeysAreInjective(fs: Parts, gs: Parts)
    requires fs != [] && gs != [] && AllHashFree(fs) && AllHashFree(gs)
    ensures KeyOf(fs) == KeyOf(gs) <==> fs == gs
  {
    if KeyOf(fs) == KeyOf(gs) {
      KeyExtended(fs);
      KeyExtended(gs);
      PrefixFindsExtensions(fs, gs + [""]);
      PrefixFindsExtensions(gs, fs + [""]);
      assert fs < gs + [""] && gs < fs + [""];
    }
  }

  lemma KeyExtended(fs: Parts)
    requires fs != []
    ensures KeyOf(fs + [""]) == PrefixOf(fs)
  {
    assert (fs + [""])[1..] == fs[1..] + [""];
    assert (fs[1..] + [""])[..|fs| - 1] == fs[1..];
  }

  // ---- Numbers in keys --------------------------------------------------------------------------

  function Digit(n: nat): char
    requires n < 10
  {
    '0' + n as char
  }

  function Digits(n: nat): string {
    if n < 10 then [Digit(n)] else Digits(n / 10) + [Digit(n % 10)]
  }

  /** std::to_string */
  function ToString(n: int): string {
    if n < 0 then "-" + Digits(-n) else Digits(n)
  }

  function Value(s: string): int {
    if s == "" then 0 else Value(s[..|s| - 1]) * 10 + (s[|s| - 1] as int - '0' as int)
  }

  lemma {:induction false} DigitsValue(n: nat)
    ensures Digits(n) != "" && Value(Digits(n)) == n && '#' !in Digits(n) && '0' <= Digits(n)[0] <= '9'
  {
    if n >= 10 {
      DigitsValue(n / 10);
      var s := Digits(n);
      assert s[..|s| - 1] == Digits(n / 10);
    } else {
      assert Digits(n)[..0] == "";
    }
  }

  /** Numbers have '#'-free, distinct names, none of which looks like an absolute path. */
  lemma NumbersInKeys(m: int, n: int)
    ensures HashFree(ToString(n)) && ToString(n) != "" && ToString(n)[0] != '/'
    ensures ToString(m) == ToString(n) <==> m == n
    ensures n < 0 ==> ToString(n)[0] == '-' && Value(ToString(n)[1..]) == -n
    ensures n >= 0 ==> Value(ToString(n)) == n
  {
    DigitsValue(if m < 0 then -m else m);
    DigitsValue(if n < 0 then -n else n);
    if m < 0 {
      assert ToString(m)[1..] == Digits(-m);
    }
    if n < 0 {
      assert ToString(n)[1..] == Digits(-n);
    }
  }

  // ---- The keys of a store's metadata -----------------------------------------------------------

  /** StoreMetaData; `rest` stands for the fields that no key mentions. */
  datatype StoreMeta = StoreMeta(
    version: nat,
    deviceId: string,
    user: string,
    bundleName: string,
    storeId: string,
    instanceId: int,
    dataDir: string,
    rest: nat)

  predicate Plain(m: StoreMeta) {
    HashFree(m.deviceId) && HashFree(m.user) && HashFree(m.bundleName) && HashFree(m.storeId) && HashFree(m.dataDir)
  }

  /** Family, device, user, "default", bundle, store; the instance unless it is 0; the path if asked for. */
  function StoreParts(family: string, m: StoreMeta, withPath: bool): Parts {
    [family, m.deviceId, m.user, "default", m.bundleName, m.storeId]
      + (if m.instanceId == 0 then [] else [ToString(m.instanceId)])
      + (if withPath then [m.dataDir] else [])
  }

  const STORE := "KvStoreMetaData"
  const LOCAL := "KvStoreMetaDataLocal"
  const MAPPING := "StoreMetaMapping"
  const SECRET := "SecretKey"
  const DEBUG_INFO := "StoreDebugInfo"
  const DFX_INFO := "StoreDfxInfo"

  /** No device; the instance, 0 included, from version UUID_CHANGED_TAG on. */
  function SecretParts(m: StoreMeta, withPath: bool): Parts {
    [SECRET, m.user, "default", m.bundleName, m.storeId]
      + (if m.version < UUID_CHANGED_TAG then [] else [ToString(m.instanceId)])
      + (if withPath then [m.dataDir] else [])
      + ["SINGLE_KEY"]
  }

  /** The instance, 0 included, and never the path; a dfx key ends with a separator. */
  function DebugParts(m: StoreMeta): Parts {
    [DEBUG_INFO, m.deviceId, m.user, "default", m.bundleName, m.storeId, ToString(m.instanceId)]
  }

  function DfxParts(m: StoreMeta): Parts {
    [DFX_INFO, m.deviceId, m.user, "default", m.bundleName, m.storeId, ToString(m.instanceId), ""]
  }

  function GetKey(m: StoreMeta): string {
    KeyOf(StoreParts(STORE, m, true))
  }

  /** The fields that identify a record, with and without its path. */
  predicate SameStore(m: StoreMeta, n: StoreMeta) {
    m.deviceId == n.deviceId && m.user == n.user && m.bundleName == n.bundleName && m.storeId == n.storeId
      && m.instanceId == n.instanceId
  }

  lemma StorePartsPlain(family: string, m: StoreMeta, withPath: bool)
    requires HashFree(family) && Plain(m)
    ensures AllHashFree(StoreParts(family, m, withPath))
  {
    NumbersInKeys(0, m.instanceId);
  }

  lemma StorePartsAgree(family: string, m: StoreMeta, n: StoreMeta, withPath: bool)
    ensures StoreParts(family, m, withPath) == StoreParts(family, n, withPath) <==>
      SameStore(m, n) && (withPath ==> m.dataDir == n.dataDir)
  {
    var p, q := StoreParts(family, m, withPath), StoreParts(family, n, withPath);
    NumbersInKeys(m.instanceId, n.instanceId);
    if p == q {
      assert p[1] == q[1] && p[2] == q[2] && p[4] == q[4] && p[5] == q[5];
      assert |p| == |q|;
      if m.instanceId != 0 {
        assert p[6] == q[6];
      }
      assert p[|p| - 1] == q[|q| - 1];
    }
  }

  /** GetKey is injective in device, user, bundle, store, instance and path, though it omits instance 0. */
  lemma GetKeyInjective(m: StoreMeta, n: StoreMeta)
    requires Plain(m) && Plain(n)
    ensures GetKey(m) == GetKey(n) <==> SameStore(m, n) && m.dataDir == n.dataDir
  {
    StorePartsPlain(STORE, m, true);
    StorePartsPlain(STORE, n, true);
    KeysAreInjective(StoreParts(STORE, m, true), StoreParts(STORE, n, true));
    StorePartsAgree(STORE, m, n, true);
  }
}
