/** JSON values as the source reads them, and the library calls it makes on them. */
module Json {
  import opened Wrappers

  /** The property names the source reads; `Other` is any other name. */
  datatype Key =
    | Active | Action | Actor | AgentConnect | AgentConnectPackage | Allowed | App | AppNpub | AppPubkey | Auth | Code
    | ConnectionToken | CurrentMember | DedupeKey | Deleted | Descriptor | DetailCode | DirectHttpsUrl | DocsUrl
    | ExpiresAt | GeneratedAt | Grant | GrantId | Groups | HealthUrl | Identity | IssuedAt | IssuedByNpub | Issuer
    | Kind | LabelText | Member | MemberNpub | Membership | MeUrl | Name | Namespace | Npub | OpenapiUrl | OwnerNpub
    | Protocol | Reason | Recipient | RecipientNpub | RelayUrls | SchemaNamespace | ServerNpub | Service | ServiceNpub
    | State | Status | Tombstoned | TowerBaseUrl | TowerServiceNpub | V4WorkspaceId | Type | Verified | Version | Viewer
    | ViewerNpub | Workspace | WorkspaceDescriptor | WorkspaceId | WorkspaceOwnerNpub | Workspaces
    | WorkspaceServiceNpub
    /** the camel-case spelling of a descriptor field */
    | Camel(snake: Key)
    | Other(name: string)

  /** `Undefined` is what reading an absent property gives. */
  datatype Json =
    | Undefined
    | Null
    | Bool(b: bool)
    | Num(n: real)
    | Str(s: string)
    | Arr(items: seq<Json>)
    | Obj(fields: map<Key, Json>)

  /** `value?.key` */
  function Get(value: Json, key: Key): Json {
    if value.Obj? && key in value.fields then value.fields[key] else Undefined
  }

  /** `{ ...value, key: field }` */
  function Set(value: Json, key: Key, field: Json): Json
    requires value.Obj?
  {
    Obj(value.fields[key := field])
  }

  lemma GetSet(value: Json, key: Key, field: Json, other: Key)
    requires value.Obj?
    ensures Set(value, key, field).Obj?
    ensures Get(Set(value, key, field), other) == if other == key then field else Get(value, other)
  {
  }

  predicate Truthy(value: Json) {
    match value
    case Undefined | Null => false
    case Bool(b) => b
    case Num(n) => n != 0.0
    case Str(s) => s != ""
    case Arr(_) | Obj(_) => true
  }

  /** `left ?? right` */
  function Else(left: Json, right: Json): Json {
    if left.Undefined? || left.Null? then right else left
  }

  function OrElse(left: Option<string>, right: Option<string>): Option<string> {
    if left.Some? then left else right
  }

  /** A nullable string seen as a value again. */
  function Value(text: Option<string>): Json {
    if text.Some? then Str(text.value) else Null
  }

  /** `===` between values parsed from different texts: two objects are never the same one. */
  predicate Same(left: Json, right: Json) {
    left == right && !left.Obj? && !left.Arr?
  }

  predicate IsObject(value: Json) {
    value.Obj? || value.Arr?
  }

  /** `getObject(value) ?? {}` */
  function ObjectOrEmpty(value: Json): (r: Json)
    ensures r.Obj?
  {
    if value.Obj? then value else Obj(map[])
  }

  // ----- text -----

  predicate IsSpace(c: char) {
    '\t' <= c <= '\r' || c == ' ' || c == '\U{A0}' || c == '\U{1680}' || '\U{2000}' <= c <= '\U{200A}' ||
    c == '\U{2028}' || c == '\U{2029}' || c == '\U{202F}' || c == '\U{205F}' || c == '\U{3000}' || c == '\U{FEFF}'
  }

  /** By code point: the twenty-five characters that `trim` takes for white space. */
  lemma SpacesExactly(c: char)
    ensures IsSpace(c) <==>
            c as int in {
              9, 10, 11, 12, 13, 32, 160, 5760, 8192, 8193, 8194, 8195, 8196, 8197, 8198, 8199, 8200, 8201, 8202, 8232,
              8233, 8239, 8287, 12288, 65279
            }
  {
  }

  /** Neither end of the text is white space. */
  predicate Trimmed(s: string) {
    s != "" ==> !IsSpace(s[0]) && !IsSpace(s[|s| - 1])
  }

  function TrimStart(s: string): (r: string)
    ensures r != "" ==> !IsSpace(r[0])
  {
    if s != "" && IsSpace(s[0]) then TrimStart(s[1..]) else s
  }

  function TrimEnd(s: string): (r: string)
    ensures r <= s && (r != "" ==> !IsSpace(r[|r| - 1]))
  {
    if s != "" && IsSpace(s[|s| - 1]) then TrimEnd(s[..|s| - 1]) else s
  }

  function Trim(s: string): (r: string)
    ensures Trimmed(r) && (Trimmed(s) <==> r == s)
  {
    TrimEnd(TrimStart(s))
  }

  /** The values on which `getString` is the identity. */
  predicate IsTrimmedText(value: Json) {
    value.Str? && value.s != "" && Trimmed(value.s)
  }

  /** `getString(value)`: the trimmed text, or nothing. */
  function GetString(value: Json): (r: Option<string>)
    ensures r.Some? ==> value.Str? && IsTrimmedText(Str(r.value))
    ensures IsTrimmedText(value) <==> r.Some? && value == Str(r.value)
  {
    if value.Str? && Trim(value.s) != "" then Some(Trim(value.s)) else None
  }

  function StripSlashes(s: string): (r: string)
    ensures r <= s && (r != "" ==> r[|r| - 1] != '/')
  {
    if s != "" && s[|s| - 1] == '/' then StripSlashes(s[..|s| - 1]) else s
  }

  // ----- library calls -----

  /** The calls into code outside the repository, as arbitrary functions of their argument. */
  datatype Library = Library(
    /** `Number(value)`; `None` is NaN */
    number: Json -> Option<real>,
    /** `Date.parse(value)`; `None` is NaN */
    dateMs: Json -> Option<int>,
    /** `String(value)` of something that is not a string */
    text: Json -> string,
    lower: string -> string,
    /** `normaliseUrl` of a truthy value; it may throw on one that is not a string */
    url: Json -> Option<string>,
    /** whether `URL.parse` yields an http or https URL */
    isHttpUrl: string -> bool,
    /** the lower-cased key contains one of the refused names */
    isCredentialName: Key -> bool,
    /** base64 and JSON decoding of a connection token */
    token: string -> Option<Json>,
    /** `nip19.npubEncode` of a well-formed key; `None` when malformed */
    npubOf: string -> Option<string>,
    /** `nip19.decode` of an npub */
    hexOf: string -> Option<string>,
    sha256: string -> string,
    parse: string -> Option<Json>
  )

  /** `${value}` */
  function Text(lib: Library, value: Json): string {
    if value.Str? then value.s else lib.text(value)
  }

  /** `normaliseBackendBaseUrl` (src/agent-chat/tower-client.ts:439-446); `None` when it throws */
  function BackendBaseUrl(lib: Library, baseUrl: string): Option<string> {
    var trimmed := Trim(baseUrl);
    if lib.isHttpUrl(trimmed) then Some(StripSlashes(trimmed)) else None
  }
}
