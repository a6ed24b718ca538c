/**
 * The header store of MessageTrait (`parsedHeaders`): a PHP ordered array
 * from header name to the list of its `;`-separated, trimmed segments.
 *
 * A PHP array keeps its keys in insertion order; writing an existing key
 * replaces the value where it stands, writing a new key appends it, and
 * unset() drops the entry. The store is therefore a sequence of entries with
 * distinct names, and the functions below are the array operations the trait
 * performs on it.
 */
module HeaderStore {
  import opened Wrappers
  import opened Text

  datatype Header = Header(name: string, segments: seq<string>)

  type HeaderList = seq<Header>

  /** A value in the array given to addHeaders(): a string to split, or a list kept as it is. */
  datatype HeaderValue = Raw(text: string) | List(items: seq<string>)

  /** An entry of that array: an integer key with a "Name: value" line, or a name key. */
  datatype HeaderInput = Positional(line: string) | Named(name: string, value: HeaderValue)

  /** No name is stored twice (the keys of a PHP array). */
  predicate Distinct(h: HeaderList) {
    forall i, j :: 0 <= i < j < |h| ==> h[i].name != h[j].name
  }

  /** The keys in iteration order. */
  function Names(h: HeaderList): seq<string> {
    seq(|h|, i requires 0 <= i < |h| => h[i].name)
  }

  function IndexFrom(h: HeaderList, n: string, from: nat): (r: Option<nat>)
    ensures r.Some? ==> from <= r.value < |h| && h[r.value].name == n
    ensures r.None? ==> forall i :: from <= i < |h| ==> h[i].name != n
    decreases |h| - from
  {
    if from >= |h| then None
    else if h[from].name == n then Some(from)
    else IndexFrom(h, n, from + 1)
  }

  /** Where key `n` stands, if it is present. */
  function Index(h: HeaderList, n: string): (r: Option<nat>)
    ensures r.Some? ==> r.value < |h| && h[r.value].name == n
    ensures r.None? ==> forall i :: 0 <= i < |h| ==> h[i].name != n
  {
    IndexFrom(h, n, 0)
  }

  /** `$parsedHeaders[$n] ?? null`. */
  function Lookup(h: HeaderList, n: string): Option<seq<string>> {
    match Index(h, n)
    case Some(i) => Some(h[i].segments)
    case None => None
  }

  /** `$parsedHeaders[$n] = $v`: replace in place, or append a new key. */
  function Put(h: HeaderList, n: string, v: seq<string>): HeaderList {
    match Index(h, n)
    case Some(i) => h[i := Header(n, v)]
    case None => h + [Header(n, v)]
  }

  /** `unset($parsedHeaders[$n])`. */
  function Remove(h: HeaderList, n: string): HeaderList {
    match Index(h, n)
    case Some(i) => h[..i] + h[i + 1..]
    case None => h
  }

  /** getHeader(): the stored list for exactly `n`, or the empty list. */
  function Get(h: HeaderList, n: string): seq<string> {
    Lookup(h, n).GetOr([])
  }

  /** hasHeader(): looks up the lower-cased argument, whatever case the key was stored in. */
  predicate Has(h: HeaderList, n: string) {
    Lookup(h, Lower(n)).Some?
  }

  /** The stored name: every `_` becomes `-`, nothing else changes. */
  function NormalizeName(n: string): string {
    Replace(n, '_', '-')
  }

  /** `array_map('trim', explode(';', $s))`. */
  function Segments(s: string): seq<string> {
    var parts := Split(s, ";");
    seq(|parts|, i requires 0 <= i < |parts| => Trim(parts[i]))
  }

  /** One pass of the addHeaders() loop. */
  function Apply(h: HeaderList, e: HeaderInput): HeaderList {
    match e
    case Positional(line) =>
      if !Contains(line, ":") then h
      else
        var parts := SplitOnce(line, ":");
        Put(h, NormalizeName(parts[0]), Segments(parts[1]))
    case Named(n, Raw(text)) => Put(h, NormalizeName(n), Segments(text))
    case Named(n, List(items)) => Put(h, NormalizeName(n), items)
  }

  /** addHeaders(): the entries applied in order. */
  function AddAll(h: HeaderList, es: seq<HeaderInput>): HeaderList
    decreases |es|
  {
    if es == [] then h else Apply(AddAll(h, es[..|es| - 1]), es[|es| - 1])
  }

  /** The lines of a header block given to addHeaders() as a list. */
  function Positionals(lines: seq<string>): seq<HeaderInput> {
    seq(|lines|, i requires 0 <= i < |lines| => Positional(lines[i]))
  }

  /** `stripos($segment, 'boundary=') !== false`. */
  predicate MentionsBoundary(segment: string) {
    ContainsFold(segment, "boundary=")
  }

  /** `a` is `b` with some elements left out, order kept. */
  predicate Subsequence<T(==)>(a: seq<T>, b: seq<T>)
    decreases |b|
  {
    if a == [] then true
    else if b == [] then false
    else if a[0] == b[0] then Subsequence(a[1..], b[1..])
    else Subsequence(a, b[1..])
  }

  /** The array_filter() of removeHeaderValue(): drops exactly the segments that mention a boundary. */
  function StripBoundary(segs: seq<string>): (r: seq<string>)
    ensures forall x :: multiset(r)[x] == if MentionsBoundary(x) then 0 else multiset(segs)[x]
    ensures Subsequence(r, segs)
  {
    if segs == [] then []
    else
      var rest := StripBoundary(segs[1..]);
      assert segs == [segs[0]] + segs[1..];
      if MentionsBoundary(segs[0]) then
        assert rest != [] ==> rest[0] != segs[0] by {
          if rest != [] { assert rest[0] in multiset(rest); }
        }
        rest
      else
        assert ([segs[0]] + rest)[1..] == rest;
        [segs[0]] + rest
  }

  /** removeHeaderValue(): the stripped list is written back under the name as given. */
  function RemoveValue(h: HeaderList, n: string): HeaderList {
    Put(h, n, StripBoundary(Get(h, n)))
  }

  /** One flattened line, `name:seg1;seg2…`. */
  function WireLine(hd: Header): string {
    hd.name + ":" + Join(";", hd.segments)
  }

  /** getHeaders(true) before a Response adds its status line. */
  function Flatten(h: HeaderList): seq<string> {
    seq(|h|, i requires 0 <= i < |h| => WireLine(h[i]))
  }

  // ------------------------------------------------------------------ lemmas

  /** In a store without duplicate keys, the lookup of a stored name finds its own entry. */
  lemma LookupAt(h: HeaderList, i: nat)
    requires Distinct(h) && i < |h|
    ensures Lookup(h, h[i].name) == Some(h[i].segments)
  {
  }

  /** getHeader() finds exactly the name given, or yields []; hasHeader() asks whether the lower-cased name is a key. */
  lemma GetAndHasSpec(h: HeaderList, n: string)
    requires Distinct(h)
    ensures forall i :: 0 <= i < |h| && h[i].name == n ==> Get(h, n) == h[i].segments
    ensures n !in Names(h) ==> Get(h, n) == []
    ensures Has(h, n) <==> Lower(n) in Names(h)
  {
    forall i | 0 <= i < |h| && h[i].name == n
      ensures Get(h, n) == h[i].segments
    {
      LookupAt(h, i);
    }
    var exact := Index(h, n);
    if exact.Some? {
      assert Names(h)[exact.value] == n;
    }
    var lowered := Index(h, Lower(n));
    if lowered.Some? {
      assert Names(h)[lowered.value] == Lower(n);
    }
    if Lower(n) in Names(h) {
      var i :| 0 <= i < |h| && Names(h)[i] == Lower(n);
      LookupAt(h, i);
    }
  }

  /**
   * Writing a key replaces its list and leaves every other key's list as it was;
   * the key keeps its place when it was present and is appended otherwise.
   */
  lemma {:induction false} PutSpec(h: HeaderList, n: string, v: seq<string>)
    requires Distinct(h)
    ensures Distinct(Put(h, n, v))
    ensures Lookup(Put(h, n, v), n) == Some(v)
    ensures forall m :: m != n ==> Lookup(Put(h, n, v), m) == Lookup(h, m)
    ensures Names(Put(h, n, v)) == if Lookup(h, n).Some? then Names(h) else Names(h) + [n]
  {
    var p := Put(h, n, v);
    var k := if Index(h, n).Some? then Index(h, n).value else |h|;
    assert k < |p| && p[k] == Header(n, v);
    assert forall j :: 0 <= j < |h| && j != k ==> p[j] == h[j];
    assert |p| == if k < |h| then |h| else |h| + 1;
    assert Distinct(p);
    LookupAt(p, k);
    forall m | m != n
      ensures Lookup(p, m) == Lookup(h, m)
    {
      if j :| 0 <= j < |h| && h[j].name == m {
        LookupAt(h, j);
        LookupAt(p, j);
      } else {
        assert forall j :: 0 <= j < |p| ==> p[j].name != m;
      }
    }
  }

  /** hasHeader() after a write sees the new key only when the written name is already lower-case. */
  lemma HasAfterPut(h: HeaderList, k: string, v: seq<string>, n: string)
    requires Distinct(h)
    ensures Has(Put(h, k, v), n) <==> Lower(n) == k || Has(h, n)
  {
    PutSpec(h, k, v);
  }

  /** removeHeader() drops exactly that key and nothing else; an absent key changes nothing. */
  lemma {:induction false} RemoveSpec(h: HeaderList, n: string)
    requires Distinct(h)
    ensures Distinct(Remove(h, n))
    ensures Lookup(Remove(h, n), n) == None
    ensures forall m :: m != n ==> Lookup(Remove(h, n), m) == Lookup(h, m)
    ensures Lookup(h, n).None? ==> Remove(h, n) == h
    ensures |Remove(h, n)| == if Lookup(h, n).Some? then |h| - 1 else |h|
    ensures Lookup(h, n).Some? ==>
              exists i :: 0 <= i < |h| && h[i].name == n && Remove(h, n) == h[..i] + h[i + 1..]
  {
    var r := Remove(h, n);
    if Index(h, n).Some? {
      var i := Index(h, n).value;
      assert h[i].name == n && r == h[..i] + h[i + 1..];
      assert forall j :: 0 <= j < i ==> r[j] == h[j];
      assert forall j :: i <= j < |r| ==> r[j] == h[j + 1];
      assert Distinct(r);
      forall m | m != n
        ensures Lookup(r, m) == Lookup(h, m)
      {
        if j :| 0 <= j < |h| && h[j].name == m {
          LookupAt(h, j);
          var jr := if j < i then j else j - 1;
          assert r[jr] == h[j];
          LookupAt(r, jr);
        } else {
          assert forall j :: 0 <= j < |r| ==> r[j].name != m;
        }
      }
    }
  }

  /** removeHeaderValue() keeps every other key and leaves the name present, even if it was absent. */
  lemma RemoveValueSpec(h: HeaderList, n: string)
    requires Distinct(h)
    ensures Distinct(RemoveValue(h, n))
    ensures Lookup(RemoveValue(h, n), n) == Some(StripBoundary(Get(h, n)))
    ensures forall m :: m != n ==> Lookup(RemoveValue(h, n), m) == Lookup(h, m)
  {
    PutSpec(h, n, StripBoundary(Get(h, n)));
  }

  /** The stored name has no `_`; a name without `_` is stored exactly as given, case included. */
  lemma NormalizeNameSpec(n: string)
    ensures '_' !in NormalizeName(n)
    ensures '_' !in n ==> NormalizeName(n) == n
  {
  }

  /** A string value yields one trimmed, `;`-free segment per `;`-separated piece. */
  lemma {:induction false} SegmentsSpec(s: string)
    ensures |Segments(s)| == multiset(s)[';'] + 1
    ensures forall k :: 0 <= k < |Segments(s)| ==> Trimmed(Segments(s)[k]) && ';' !in Segments(s)[k]
  {
    SplitCount(s, ';');
    var parts := Split(s, ";");
    forall k | 0 <= k < |parts|
      ensures ';' !in Trim(parts[k])
    {
      var p := parts[k];
      forall j | 0 <= j < |p| ensures p[j] != ';' {
        assert !At(p, j, ";");
        assert p[j..j + 1] == [p[j]];
      }
    }
  }

  /** Segments of a join of trimmed, `;`-free segments are those segments. */
  lemma SegmentsOfJoin(segs: seq<string>)
    requires |segs| >= 1
    requires forall k :: 0 <= k < |segs| ==> Trimmed(segs[k]) && ';' !in segs[k]
    ensures Segments(Join(";", segs)) == segs
  {
    SplitJoin(";", segs);
  }

  /** A positional entry without `:` is skipped. */
  lemma LineWithoutColonSkipped(h: HeaderList, line: string)
    requires !Contains(line, ":")
    ensures Apply(h, Positional(line)) == h
  {
  }

  /** A positional "Name:value" entry is cut at its first `:`, so later colons stay in the value. */
  lemma PositionalEntry(h: HeaderList, name: string, value: string)
    requires ':' !in name
    ensures Apply(h, Positional(name + ":" + value)) == Put(h, NormalizeName(name), Segments(value))
  {
    var line := name + ":" + value;
    FindAfterClean(name, ":", value);
    assert line[..|name|] == name;
    assert line[|name| + 1..] == value;
  }

  /** addHeaders() of a longer list is the first entry followed by the rest. */
  lemma {:induction false} AddAllCons(h: HeaderList, e: HeaderInput, es: seq<HeaderInput>)
    ensures AddAll(h, [e] + es) == AddAll(Apply(h, e), es)
    decreases |es|
  {
    if es == [] {
      assert ([e] + es)[..0] == [];
    } else {
      var init := es[..|es| - 1];
      AddAllCons(h, e, init);
      assert ([e] + es)[..|es|] == [e] + init;
    }
  }

  /** Applying an entry keeps the keys distinct. */
  lemma ApplyDistinct(h: HeaderList, e: HeaderInput)
    requires Distinct(h)
    ensures Distinct(Apply(h, e))
  {
    match e
    case Positional(line) =>
      if Contains(line, ":") {
        var parts := SplitOnce(line, ":");
        PutSpec(h, NormalizeName(parts[0]), Segments(parts[1]));
      }
    case Named(n, Raw(text)) => PutSpec(h, NormalizeName(n), Segments(text));
    case Named(n, List(items)) => PutSpec(h, NormalizeName(n), items);
  }

  /** addHeaders() keeps the keys distinct. */
  lemma {:induction false} AddAllDistinct(h: HeaderList, es: seq<HeaderInput>)
    requires Distinct(h)
    ensures Distinct(AddAll(h, es))
    decreases |es|
  {
    if es != [] {
      AddAllDistinct(h, es[..|es| - 1]);
      ApplyDistinct(AddAll(h, es[..|es| - 1]), es[|es| - 1]);
    }
  }

  /** withHeader() starts from an empty store: the copy holds at most the one new header. */
  lemma SingleEntry(line: string)
    ensures |AddAll([], [Positional(line)])| == if Contains(line, ":") then 1 else 0
  {
    assert [Positional(line)][..0] == [];
  }

  /** A header that flattening writes in a form addHeaders() reads back unchanged. */
  predicate WireSafe(hd: Header) {
    && ':' !in hd.name
    && '_' !in hd.name
    && |hd.segments| >= 1
    && forall k :: 0 <= k < |hd.segments| ==> Trimmed(hd.segments[k]) && ';' !in hd.segments[k]
  }

  /** Reading back one flattened line writes the same entry. */
  lemma ReadBackLine(h: HeaderList, hd: Header)
    requires WireSafe(hd)
    ensures Apply(h, Positional(WireLine(hd))) == Put(h, hd.name, hd.segments)
  {
    PositionalEntry(h, hd.name, Join(";", hd.segments));
    NormalizeNameSpec(hd.name);
    SegmentsOfJoin(hd.segments);
  }

  /**
   * Round trip of the wire form: feeding the flattened lines of a store back to
   * addHeaders() on an empty store rebuilds the store, order included.
   */
  lemma {:induction false} ReadBackFlattened(h: HeaderList)
    requires Distinct(h)
    requires forall i :: 0 <= i < |h| ==> WireSafe(h[i])
    ensures AddAll([], Positionals(Flatten(h))) == h
  {
    var es := Positionals(Flatten(h));
    var k := 0;
    while k < |h|
      invariant 0 <= k <= |h|
      invariant AddAll([], es[..k]) == h[..k]
    {
      assert es[..k + 1][..k] == es[..k];
      ReadBackLine(h[..k], h[k]);
      assert Index(h[..k], h[k].name).None? by {
        assert forall j :: 0 <= j < k ==> h[..k][j].name != h[k].name;
      }
      assert h[..k + 1] == h[..k] + [h[k]];
      k := k + 1;
    }
    assert es[..|h|] == es;
    assert h[..|h|] == h;
  }
}
