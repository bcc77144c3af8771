/** Service identifiers package::name, printed by upk_concat_svcid and parsed by upk_parse_svc_id. */
module ServiceId {
  import opened Bytes

  /** UPK_MAX_STRING_LEN: the size of every buffer here. */
  const SIZE := 2048

  const SIZE_T: nat := 0x1_0000_0000_0000_0000

  const COLONS: seq<byte> := [COLON, COLON]

  function Cut(s: seq<byte>, n: nat): seq<byte> {
    if |s| <= n then s else s[..n]
  }

  /** Two colons stand at position i. */
  predicate ColonsAt(s: seq<byte>, i: nat) {
    i + 2 <= |s| && s[i] == COLON && s[i + 1] == COLON
  }

  /** strstr(s, "::"): the first position of two colons, or the length. */
  function FirstColons(s: seq<byte>): (p: nat)
    ensures p == |s| || ColonsAt(s, p)
    ensures forall i :: 0 <= i < p ==> !ColonsAt(s, i)
  {
    if s == [] || ColonsAt(s, 0) then 0
    else
      var p := FirstColons(s[1..]) + 1;
      assert forall i {:trigger ColonsAt(s, i)} :: 0 < i < p ==> !ColonsAt(s[1..], i - 1);
      p
  }

  predicate HasColons(s: seq<byte>) {
    FirstColons(s) < |s|
  }

  /** What upk_concat_svcid prints; a name that does not fit is cut. */
  function Print(pkg: seq<byte>, name: seq<byte>): (id: seq<byte>) {
    if pkg == [] then Cut(name, SIZE - 1) else Cut(pkg + COLONS + name, SIZE - 1)
  }

  /** What upk_parse_svc_id stores, given the package stored before. */
  function Parse(key: seq<byte>, package: seq<byte>): (id: (seq<byte>, seq<byte>)) {
    var p := FirstColons(key);
    if p < |key| then (Cut(key[..p], SIZE - 1), Cut(key[p + 2..], SIZE - 1))
    else (package, Cut(key, SIZE - 1))
  }

  // ---- the buffers ----

  /** strncpy: at most n bytes, padded with NUL up to n. */
  method Strncpy(dest: array<byte>, src: seq<byte>, n: nat)
    requires n <= dest.Length
    modifies dest
    ensures forall k :: 0 <= k < n ==> dest[k] == if k < |src| then src[k] else NUL
    ensures forall k :: n <= k < dest.Length ==> dest[k] == old(dest[k])
  {
    forall k | 0 <= k < n {
      dest[k] := if k < |src| then src[k] else NUL;
    }
  }

  method Clear(dest: array<byte>)
    modifies dest
    ensures forall k :: 0 <= k < dest.Length ==> dest[k] == NUL
  {
    forall k | 0 <= k < dest.Length {
      dest[k] := NUL;
    }
  }

  /** strncat: at most n bytes after the string in the buffer, and a NUL. */
  method Strncat(dest: array<byte>, ghost s: seq<byte>, src: seq<byte>, n: nat)
    requires Holds(dest[..], s) && NulFree(src) && |s| + |Cut(src, n)| < dest.Length
    modifies dest
    ensures Holds(dest[..], s + Cut(src, n))
  {
    var length := 0;
    assert forall k :: 0 <= k < |s| ==> dest[..][..|s|][k] == s[k];
    while dest[length] != NUL
      invariant length <= |s|
      decreases |s| - length
    {
      length := length + 1;
    }
    var text := Cut(src, n);
    forall k | 0 <= k < |text| {
      dest[length + k] := text[k];
    }
    dest[length + |text|] := NUL;
    assert dest[..][..|s + text|] == s + text;
  }

  /** Subtraction of the unsigned 64-bit size_t. */
  function Less(n: nat, m: nat): (r: nat)
    requires n < SIZE_T && m < SIZE_T
    ensures m <= n ==> r == n - m
  {
    (n - m) % SIZE_T
  }

  /** The calls that stay within the buffer: without room for the two colons what remains would wrap round. */
  predicate Fitting(pkg: seq<byte>, name: seq<byte>) {
    |pkg| + 2 < SIZE || (|pkg| < SIZE && name == [])
  }

  /** upk_concat_svcid. The name is cut to what is left of the buffer. */
  method ConcatSvcid(dest: array<byte>, pkg: seq<byte>, name: seq<byte>)
    requires dest.Length == SIZE && NulFree(pkg) && NulFree(name) && Fitting(pkg, name)
    modifies dest
    ensures Holds(dest[..], Print(pkg, name))
  {
    var remainder := SIZE - 1;
    Clear(dest);
    ghost var s := [];
    if |pkg| > 0 {
      Strncpy(dest, pkg, remainder);
      assert dest[..][..|pkg|] == pkg;
      remainder := Less(remainder, |pkg|);
      Strncat(dest, pkg, COLONS, remainder);
      s := pkg + Cut(COLONS, remainder);
      remainder := Less(remainder, 2);
    }
    Strncat(dest, s, name, remainder);
    CutTwice(pkg, name);
    assert s + Cut(name, remainder) == Print(pkg, name);
  }

  lemma CutTwice(pkg: seq<byte>, name: seq<byte>)
    requires Fitting(pkg, name)
    ensures pkg != [] && |pkg| + 2 < SIZE ==>
      pkg + COLONS + Cut(name, SIZE - 3 - |pkg|) == Cut(pkg + COLONS + name, SIZE - 1)
    ensures |pkg| + 2 >= SIZE ==> pkg + Cut(COLONS, SIZE - 1 - |pkg|) == Cut(pkg + COLONS + name, SIZE - 1)
  {
  }

  class Service {
    const Package: array<byte>
    const Name: array<byte>

    /** The buffers end with a NUL, which nothing overwrites. */
    ghost predicate Valid()
      reads Package, Name
    {
      Package != Name && Package.Length == Name.Length == SIZE &&
      Package[SIZE - 1] == NUL && Name[SIZE - 1] == NUL
    }

    constructor ()
      ensures Valid() && fresh(Package) && fresh(Name)
      ensures Holds(Package[..], []) && Holds(Name[..], [])
    {
      Package := new byte[SIZE](_ => NUL);
      Name := new byte[SIZE](_ => NUL);
    }

    /** The package and the name are this string. */
    ghost predicate Is(id: (seq<byte>, seq<byte>))
      reads Package, Name
    {
      Holds(Package[..], id.0) && Holds(Name[..], id.1)
    }

    /** upk_parse_svc_id. Without two colons in the key the package stays as it is. */
    method ParseSvcId(key: array<byte>, ghost s: seq<byte>, ghost package: seq<byte>)
      requires Valid() && key != Package && key != Name
      requires Holds(key[..], s) && Holds(Package[..], package)
      modifies key, Package, Name
      ensures Valid() && Is(Parse(s, package))
    {
      assert forall k :: 0 <= k < |s| ==> key[..][..|s|][k] == s[k];
      var text := ReadString(key, s);
      var p := 0;
      while p < |text| && !(text[p] == COLON && p + 1 < |text| && text[p + 1] == COLON)
        invariant p <= |text|
        invariant forall i :: 0 <= i < p ==> !ColonsAt(text, i)
      {
        p := p + 1;
      }
      assert p < |text| ==> ColonsAt(text, p);
      assert !(FirstColons(s) < p) && !(p < FirstColons(s));
      if p < |text| {
        key[p] := NUL;
        Clear(Package);
        Store(Package, text[..p]);
        Clear(Name);
        Store(Name, text[p + 2..]);
      } else {
        Store(Name, text);
      }
    }
  }

  /** The string in a buffer. */
  method ReadString(z: array<byte>, ghost s: seq<byte>) returns (text: seq<byte>)
    requires Holds(z[..], s)
    ensures text == s
  {
    var n := 0;
    assert forall k :: 0 <= k < |s| ==> z[..][..|s|][k] == s[k];
    while z[n] != NUL
      invariant n <= |s|
      decreases |s| - n
    {
      n := n + 1;
    }
    text := z[..n];
  }

  /** A string copied up to the last byte of a buffer, which is NUL. */
  method Store(dest: array<byte>, s: seq<byte>)
    requires dest.Length == SIZE && dest[SIZE - 1] == NUL && NulFree(s)
    modifies dest
    ensures dest[SIZE - 1] == NUL && Holds(dest[..], Cut(s, SIZE - 1))
  {
    Strncpy(dest, s, SIZE - 1);
    assert dest[..][..|Cut(s, SIZE - 1)|] == Cut(s, SIZE - 1);
  }

  // ---- round trips ----

  /**
   A key parsed into a descriptor that holds some package already. Printing gives the key back exactly if it
   fits, does not begin with two colons, and names its own package if there was one before.
   */
  lemma PrintParsed(key: seq<byte>, package: seq<byte>)
    requires |package| <= 2045
    ensures var (pkg, name) := Parse(key, package);
            Print(pkg, name) == key <==>
            |key| <= 2047 && !ColonsAt(key, 0) && (HasColons(key) || package == [])
  {
    var p := FirstColons(key);
    if |key| >= SIZE {
      var (pkg, name) := Parse(key, package);
      assert |Print(pkg, name)| < SIZE;
    } else if 0 < p < |key| {
      assert key == key[..p] + COLONS + key[p + 2..];
    } else if p == |key| && package != [] {
      var id := Cut(package + COLONS + key, SIZE - 1);
      assert ColonsAt(id, |package|);
    }
  }

  /** A package after which the first two colons are the separator. */
  predicate Separable(pkg: seq<byte>) {
    !HasColons(pkg) && (pkg == [] || pkg[|pkg| - 1] != COLON)
  }

  lemma SeparatorIsFirst(pkg: seq<byte>, name: seq<byte>)
    ensures FirstColons(pkg + COLONS + name) == |pkg| <==> Separable(pkg)
  {
    var id, p := pkg + COLONS + name, FirstColons(pkg);
    assert ColonsAt(id, |pkg|);
    if HasColons(pkg) {
      assert ColonsAt(id, p);
    } else if pkg != [] && pkg[|pkg| - 1] == COLON {
      assert ColonsAt(id, |pkg| - 1);
    } else {
      forall i | 0 <= i < |pkg|
        ensures !ColonsAt(id, i)
      {
        assert !ColonsAt(pkg, i);
      }
    }
  }

  predicate Fits(pkg: seq<byte>, name: seq<byte>) {
    (if pkg == [] then |name| else |pkg| + 2 + |name|) <= 2047
  }

  /**
   A printed identifier parsed into a descriptor that holds some package already. It gives back package and
   name exactly if they fit and the separator is the first two colons; or, without a package, if there are
   no two colons in the name and no package was there before.
   */
  lemma ParsePrinted(pkg: seq<byte>, name: seq<byte>, package: seq<byte>)
    requires |pkg| <= 2045
    ensures Parse(Print(pkg, name), package) == (pkg, name) <==>
            Fits(pkg, name) && if pkg == [] then !HasColons(name) && package == [] else Separable(pkg)
  {
    if pkg != [] {
      var short := Cut(name, SIZE - 3 - |pkg|);
      var id := pkg + COLONS + short;
      assert Print(pkg, name) == id;
      SeparatorIsFirst(pkg, short);
      assert ColonsAt(id, |pkg|);
      assert FirstColons(id) <= |pkg|;
      if Separable(pkg) {
        assert id[..|pkg|] == pkg && id[|pkg| + 2..] == short;
      } else {
        assert |Parse(id, package).0| == FirstColons(id);
      }
    }
  }
}
