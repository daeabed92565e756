/** js/schema.js: JSON-LD structured data injected into the document head.
    The organization schema is always added; the service schema only on a
    services page; the local-business schema only on the contact or home
    page. The schemas' constant fields are not modelled, only the parts that
    depend on the page's location. */
module SchemaInjection {
  import opened Text
  import opened Dom

  /** `window.location`: `origin` is None when it is unavailable; an
      unavailable `pathname` reads as "". */
  datatype Location = Location(origin: Option<string>, pathname: string)

  /** The origin, or "" when it is unavailable (an empty origin is falsy and
      also reads as ""). */
  function Origin(loc: Location): (o: string)
    ensures loc.origin.None? ==> o == ""
    ensures loc.origin.Some? ==> o == loc.origin.value
  {
    match loc.origin
    case None => ""
    case Some(o) => o
  }

  const LogoPath := "/img/logo.svg"

  datatype Schema =
    | Organization(url: string, logo: string)
    | Service
    | LocalBusiness(image: string)

  function OrganizationSchema(loc: Location): (s: Schema)
    ensures s.Organization? && s.url == Origin(loc) && s.logo == Origin(loc) + LogoPath
  {
    Organization(Origin(loc), Origin(loc) + LogoPath)
  }

  function LocalBusinessSchema(loc: Location): (s: Schema)
    ensures s.LocalBusiness? && s.image == Origin(loc) + LogoPath
  {
    LocalBusiness(Origin(loc) + LogoPath)
  }

  /** Both schemas point at the same logo: the organization's URL followed
      by the site's logo path. */
  lemma SchemasShareLogo(loc: Location)
    ensures OrganizationSchema(loc).logo == OrganizationSchema(loc).url + LogoPath
    ensures LocalBusinessSchema(loc).image == OrganizationSchema(loc).logo
    ensures EndsWith(OrganizationSchema(loc).logo, LogoPath)
  {
    var u := OrganizationSchema(loc).url;
    assert (u + LogoPath)[|u|..] == LogoPath;
  }

  /** Without an origin the logo is the site-relative path. */
  lemma LogoWithoutOrigin(loc: Location)
    requires loc.origin.None?
    ensures OrganizationSchema(loc).logo == LogoPath && LocalBusinessSchema(loc).image == LogoPath
  {
  }

  /** The service schema is wanted on a services page. */
  predicate WantsService(pathname: string) {
    pathname != "" && Contains(pathname, "services")
  }

  /** The local-business schema is wanted on the contact page and the home
      page. */
  predicate WantsLocalBusiness(pathname: string) {
    pathname != "" && (Contains(pathname, "contact") || pathname == "/" || EndsWith(pathname, "index.html"))
  }

  /** The schemas the page adds, in append order. */
  function Selected(loc: Location): (r: seq<Schema>)
    ensures 1 <= |r| <= 3 && r[0] == OrganizationSchema(loc)
    ensures Service in r <==> WantsService(loc.pathname)
    ensures LocalBusinessSchema(loc) in r <==> WantsLocalBusiness(loc.pathname)
    ensures forall k :: 1 <= k < |r| ==> !r[k].Organization?
  {
    [OrganizationSchema(loc)]
      + (if WantsService(loc.pathname) then [Service] else [])
      + (if WantsLocalBusiness(loc.pathname) then [LocalBusinessSchema(loc)] else [])
  }

  function Rank(s: Schema): nat {
    match s
    case Organization(_, _) => 0
    case Service => 1
    case LocalBusiness(_) => 2
  }

  /** Organization, then service, then local business: each schema is added
      at most once and in that order. */
  lemma SelectedInOrder(loc: Location)
    ensures forall i, j :: 0 <= i < j < |Selected(loc)| ==> Rank(Selected(loc)[i]) < Rank(Selected(loc)[j])
  {
  }

  /** The `pathname` guard in front of both tests changes nothing: an empty
      pathname neither contains a word, nor is `/`, nor ends with
      `index.html`. */
  lemma EmptyPathnameGuardRedundant(pathname: string)
    ensures WantsService(pathname) <==> Contains(pathname, "services")
    ensures WantsLocalBusiness(pathname) <==>
      Contains(pathname, "contact") || pathname == "/" || EndsWith(pathname, "index.html")
  {
  }

  /** The home page gets the organization and local-business schemas only. */
  lemma HomePage(loc: Location)
    requires loc.pathname == "/"
    ensures Selected(loc) == [OrganizationSchema(loc), LocalBusinessSchema(loc)]
  {
    assert !Contains(loc.pathname, "services");
  }

  /** The argument of `createSchemaScript`. */
  datatype Argument = NullArg | NonObjectArg | ObjectArg(schema: Schema)

  const JsonLd := "application/ld+json"

  /** A `<script>` element in the head: its `type` and the schema its text
      serialises. */
  datatype Script = Script(scriptType: string, schema: Schema)

  /** `document.head`, if the document has one, and the scripts appended to
      it. */
  class Head {
    const present: bool
    var scripts: seq<Script>

    constructor (present: bool)
      ensures this.present == present && scripts == []
    {
      this.present := present;
      scripts := [];
    }

    /** `createSchemaScript`: false, appending nothing, for a null or
        non-object argument or a missing head; otherwise exactly one JSON-LD
        script holding the schema is appended and the result is true. */
    method CreateSchemaScript(arg: Argument) returns (ok: bool)
      modifies this`scripts
      ensures ok <==> arg.ObjectArg? && present
      ensures ok ==> scripts == old(scripts) + [Script(JsonLd, arg.schema)]
      ensures !ok ==> scripts == old(scripts)
    {
      if !arg.ObjectArg? {
        return false;
      }
      if !present {
        return false;
      }
      scripts := scripts + [Script(JsonLd, arg.schema)];
      return true;
    }

    /** The `DOMContentLoaded` listener: the selected schemas are appended in
        order, or nothing when there is no head. */
    method InjectSchemas(loc: Location)
      modifies this`scripts
      ensures present ==> scripts == old(scripts) + seq(|Selected(loc)|, i requires 0 <= i < |Selected(loc)| => Script(JsonLd, Selected(loc)[i]))
      ensures !present ==> scripts == old(scripts)
    {
      var _ := CreateSchemaScript(ObjectArg(OrganizationSchema(loc)));
      if loc.pathname != "" {
        if Contains(loc.pathname, "services") {
          var _ := CreateSchemaScript(ObjectArg(Service));
        }
      }
      if loc.pathname != "" {
        var pathname := loc.pathname;
        if Contains(pathname, "contact") || pathname == "/" || EndsWith(pathname, "index.html") {
          var _ := CreateSchemaScript(ObjectArg(LocalBusinessSchema(loc)));
        }
      }
    }
  }
}
