/**
 * The Uri value: scheme, host, path, query array and fragment, each with a
 * getter (a field read here), an in-place setter that returns the same
 * object, and a `with*` form that clones first. Parsing goes through
 * parse_url() and parse_str(), and the string form through
 * http_build_query(); all three come from the Library parameter.
 */
module Uris {
  import opened Wrappers
  import opened Text
  import opened Runtime

  datatype UriFields = UriFields(scheme: string, host: string, path: string, query: Query, fragment: string)

  /** The field defaults of `new Uri()`. */
  const NoFields := UriFields("", "", "", map[], "")

  /** PHP truthiness of a string: "" and "0" are false. */
  predicate Truthy(s: string) {
    s != "" && s != "0"
  }

  /** __toString(): the separator "://" is written whether or not there is a scheme or host. */
  function Compose(u: UriFields, buildQuery: Query -> string): string {
    u.scheme + "://" + u.host + u.path
    + (if u.query != map[] then "?" + buildQuery(u.query) else "")
    + (if Truthy(u.fragment) then "#" + u.fragment else "")
  }

  /** The constructor's parse of a string: a component parse_url() does not report becomes "". */
  function FromText(text: string, lib: Library): UriFields {
    var parts := lib.parseUrl(text);
    UriFields(
      parts.scheme.GetOr(""),
      parts.host.GetOr(""),
      parts.path.GetOr(""),
      lib.parseStr(parts.query.GetOr("")),
      parts.fragment.GetOr(""))
  }

  /**
   * Reading the fragment back from the string form: when neither the scheme,
   * host, path nor encoded query holds a `#`, the string holds a `#` exactly
   * when the fragment is truthy, and then everything after the first `#` is
   * the fragment. A fragment "" or "0" leaves no trace.
   */
  lemma FragmentReadBack(u: UriFields, buildQuery: Query -> string)
    requires '#' !in u.scheme && '#' !in u.host && '#' !in u.path
    requires u.query != map[] ==> '#' !in buildQuery(u.query)
    ensures Contains(Compose(u, buildQuery), "#") <==> Truthy(u.fragment)
    ensures Truthy(u.fragment) ==>
              Compose(u, buildQuery)[Find(Compose(u, buildQuery), "#").value + 1..] == u.fragment
  {
    var head := Compose(u.(fragment := ""), buildQuery);
    assert '#' !in head by {
      assert head == u.scheme + "://" + u.host + u.path
                     + (if u.query != map[] then "?" + buildQuery(u.query) else "");
    }
    if Truthy(u.fragment) {
      assert Compose(u, buildQuery) == head + "#" + u.fragment;
      FindAfterClean(head, "#", u.fragment);
    } else {
      assert Compose(u, buildQuery) == head;
      NoFirstCharNoOccurrence(head, "#");
    }
  }

  /**
   * Reading the query back from the string form: when the scheme, host and
   * path hold no `?`, a non-empty query makes the first `?` the end of
   * scheme, "://", host and path, and its encoding follows right after; an
   * empty query, with a fragment free of `?`, leaves no `?` at all.
   */
  lemma QueryReadBack(u: UriFields, buildQuery: Query -> string)
    requires '?' !in u.scheme && '?' !in u.host && '?' !in u.path
    ensures var s := Compose(u, buildQuery);
            var bare := u.scheme + "://" + u.host + u.path;
            u.query != map[] ==>
              && Find(s, "?") == Some(|bare|)
              && s[..|bare|] == bare
              && |s| >= |bare| + 1 + |buildQuery(u.query)|
              && s[|bare| + 1..|bare| + 1 + |buildQuery(u.query)|] == buildQuery(u.query)
    ensures u.query == map[] && '?' !in u.fragment ==> !Contains(Compose(u, buildQuery), "?")
  {
    var s := Compose(u, buildQuery);
    var bare := u.scheme + "://" + u.host + u.path;
    var tail := if Truthy(u.fragment) then "#" + u.fragment else "";
    assert '?' !in bare;
    if u.query != map[] {
      var q := buildQuery(u.query);
      assert s == bare + "?" + (q + tail);
      FindAfterClean(bare, "?", q + tail);
      assert s[|bare| + 1..|bare| + 1 + |q|] == (q + tail)[..|q|];
    } else if '?' !in u.fragment {
      assert s == bare + tail;
      assert '?' !in tail;
      NoFirstCharNoOccurrence(s, "?");
    }
  }

  class Uri {
    var scheme: string
    var host: string
    var path: string
    var query: Query
    var fragment: string

    function Value(): UriFields
      reads this
    {
      UriFields(scheme, host, path, query, fragment)
    }

    /** __toString(). */
    function Text(lib: Library): string
      reads this
    {
      Compose(Value(), lib.buildQuery)
    }

    /** `new Uri()` / `new Uri(null)`: every field empty. */
    constructor ()
      ensures Value() == NoFields
    {
      scheme, host, path, query, fragment := "", "", "", map[], "";
    }

    /** `new Uri($string)`. */
    constructor FromString(text: string, lib: Library)
      ensures Value() == FromText(text, lib)
    {
      var parts := lib.parseUrl(text);
      scheme := parts.scheme.GetOr("");
      host := parts.host.GetOr("");
      path := parts.path.GetOr("");
      query := lib.parseStr(parts.query.GetOr(""));
      fragment := parts.fragment.GetOr("");
    }

    /** `new Uri($uri)`: the same as building from the other Uri's string form. */
    constructor FromUri(other: Uri, lib: Library)
      ensures Value() == FromText(other.Text(lib), lib)
    {
      var text := other.Text(lib);
      var parts := lib.parseUrl(text);
      scheme := parts.scheme.GetOr("");
      host := parts.host.GetOr("");
      path := parts.path.GetOr("");
      query := lib.parseStr(parts.query.GetOr(""));
      fragment := parts.fragment.GetOr("");
    }

    /** `clone $this`: a distinct object with equal fields, the query array copied by value. */
    method Clone() returns (c: Uri)
      ensures fresh(c) && c.Value() == Value()
    {
      c := new Uri();
      c.scheme, c.host, c.path, c.query, c.fragment := scheme, host, path, query, fragment;
    }

    method SetScheme(s: string) returns (self: Uri)
      modifies this`scheme
      ensures self == this && Value() == old(Value()).(scheme := s)
    {
      scheme := s;
      self := this;
    }

    method WithScheme(s: string) returns (r: Uri)
      ensures fresh(r) && r.Value() == Value().(scheme := s)
    {
      r := Clone();
      r.scheme := s;
    }

    method SetHost(h: string) returns (self: Uri)
      modifies this`host
      ensures self == this && Value() == old(Value()).(host := h)
    {
      host := h;
      self := this;
    }

    method WithHost(h: string) returns (r: Uri)
      ensures fresh(r) && r.Value() == Value().(host := h)
    {
      r := Clone();
      r.host := h;
    }

    method SetPath(p: string) returns (self: Uri)
      modifies this`path
      ensures self == this && Value() == old(Value()).(path := p)
    {
      path := p;
      self := this;
    }

    method WithPath(p: string) returns (r: Uri)
      ensures fresh(r) && r.Value() == Value().(path := p)
    {
      r := Clone();
      r.path := p;
    }

    method SetQuery(q: Query) returns (self: Uri)
      modifies this`query
      ensures self == this && Value() == old(Value()).(query := q)
    {
      query := q;
      self := this;
    }

    method WithQuery(q: Query) returns (r: Uri)
      ensures fresh(r) && r.Value() == Value().(query := q)
    {
      r := Clone();
      r.query := q;
    }

    method SetFragment(f: string) returns (self: Uri)
      modifies this`fragment
      ensures self == this && Value() == old(Value()).(fragment := f)
    {
      fragment := f;
      self := this;
    }

    method WithFragment(f: string) returns (r: Uri)
      ensures fresh(r) && r.Value() == Value().(fragment := f)
    {
      r := Clone();
      r.fragment := f;
    }
  }

  /**
   * Copy isolation: changing the query of a `withQuery` copy afterwards leaves
   * the original's query as it was.
   */
  method WithQueryIsolated(u: Uri, q: Query, q2: Query)
  {
    var before := u.query;
    var copy := u.WithQuery(q);
    var _ := copy.SetQuery(q2);
    assert u.query == before && copy.query == q2;
  }
}
