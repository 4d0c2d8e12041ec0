/** Keyspace configuration: how the store format is inherited from the input
    format and the output format from the store. */
module KeyspaceConfigs {
  import opened Prelude
  import opened MagicBytes

  datatype Kind = KSString | KSDM | KSAtomic | KSHashes

  datatype KeyspaceFormat = KeyspaceFormat(contentType: string, contentEncoding: string, magicByte: MagicByte)

  datatype Formats = Formats(input: KeyspaceFormat, store: KeyspaceFormat, output: KeyspaceFormat)

  /** A setting, or what it inherits when it is empty. */
  function OrElse(text: string, inherited: string): string {
    if text != "" then text else inherited
  }

  function Labelled(contentType: string, contentEncoding: string, encryption: bv8): KeyspaceFormat {
    KeyspaceFormat(contentType, contentEncoding, New(contentEncoding, contentType, encryption))
  }

  /** The formats a configured keyspace ends up with. An output type is dropped
      when the store leaves its type open. */
  function Inherit(f: Formats, encryption: bv8): Formats {
    var storeType := OrElse(f.store.contentType, f.input.contentType);
    var storeEncoding := OrElse(f.store.contentEncoding, f.input.contentEncoding);
    var outputType := if storeType == "" then "" else OrElse(f.output.contentType, storeType);
    Formats(
      Labelled(f.input.contentType, f.input.contentEncoding, 0),
      Labelled(storeType, storeEncoding, encryption),
      Labelled(outputType, OrElse(f.output.contentEncoding, storeEncoding), 0))
  }

  /** What a keyspace says about its FindX; all of it empty in a new one. */
  datatype FindXConfig = FindXConfig(Enabled: bool, URL: string, userAgent: string)

  const APP_NAME := "xdas"

  /** The FindX every keyspace ends up with: its own or a new one that is not enabled. */
  function FindXFor(configured: Option<FindXConfig>): FindXConfig {
    match configured
    case None => FindXConfig(false, "", APP_NAME)
    case Some(f) => f.(userAgent := APP_NAME)
  }

  /** What validation fills in for a keyspace. */
  datatype Setup = Setup(formats: Formats, findX: Option<FindXConfig>)

  /** And what it makes of it. */
  function AfterValidation(c: Setup, encryption: bv8): Setup {
    c.(formats := Inherit(c.formats, encryption), findX := Some(FindXFor(c.findX)))
  }

  class KeyspaceConfig {
    const kind: Kind
    const ttlString: string
    var input: KeyspaceFormat
    var store: KeyspaceFormat
    var output: KeyspaceFormat
    var findX: Option<FindXConfig>
    var ttl: int

    constructor (c: Setup, kind: Kind, ttlString: string)
      ensures View() == c && this.kind == kind && this.ttlString == ttlString
    {
      input, store, output, findX := c.formats.input, c.formats.store, c.formats.output, c.findX;
      this.kind, this.ttlString, ttl := kind, ttlString, 0;
    }

    function View(): Setup
      reads this
    {
      Setup(Formats(input, store, output), findX)
    }

    /** The formats, in the order the fields are overwritten. */
    method InheritFormats(encryption: bv8)
      modifies this`input, this`store, this`output
      ensures View().formats == Inherit(old(View()).formats, encryption)
    {
      input := input.(magicByte := New(input.contentEncoding, input.contentType, 0));

      if store.contentEncoding == "" {
        store := store.(contentEncoding := input.contentEncoding);
      }
      if store.contentType == "" {
        store := store.(contentType := input.contentType);
      }
      store := store.(magicByte := New(store.contentEncoding, store.contentType, encryption));

      if store.contentType == "" {
        output := output.(contentType := "");
      }
      if output.contentEncoding == "" {
        output := output.(contentEncoding := store.contentEncoding);
      }
      if output.contentType == "" {
        output := output.(contentType := store.contentType);
      }
      output := output.(magicByte := New(output.contentEncoding, output.contentType, 0));
    }

    /** One turn of the validation loop. */
    method Validate(encryption: bv8, parseTTL: string -> Option<int>) returns (ok: bool)
      modifies this
      ensures View() == AfterValidation(old(View()), encryption)
      ensures ok <==> parseTTL(ttlString).Some?
      ensures ok ==> parseTTL(ttlString) == Some(ttl)
    {
      InheritFormats(encryption);
      if findX == None {
        findX := Some(FindXConfig(false, "", ""));
      }
      findX := Some(findX.value.(userAgent := APP_NAME));

      var parsed := parseTTL(ttlString);
      if parsed.None? {
        return false;
      }
      ttl := parsed.value;
      ok := true;
    }
  }

  /** Validates every keyspace, in an arbitrary order; a TTL that does not parse is
      fatal. On success every keyspace has inherited its formats and has a FindX. */
  method ValidateKeyspaceConfig(
    keyspaces: map<string, KeyspaceConfig>, encryption: bv8, parseTTL: string -> Option<int>)
    returns (ok: bool)
    requires forall k1, k2 :: k1 in keyspaces && k2 in keyspaces && k1 != k2 ==> keyspaces[k1] != keyspaces[k2]
    modifies keyspaces.Values
    ensures ok <==> forall k :: k in keyspaces ==> parseTTL(keyspaces[k].ttlString).Some?
    ensures ok ==> forall k :: k in keyspaces ==>
      && keyspaces[k].View() == AfterValidation(old(keyspaces[k].View()), encryption)
      && parseTTL(keyspaces[k].ttlString) == Some(keyspaces[k].ttl)
  {
    var todo := keyspaces.Keys;
    while todo != {}
      invariant todo <= keyspaces.Keys
      invariant forall k :: k in todo ==> keyspaces[k].View() == old(keyspaces[k].View())
      invariant forall k :: k in keyspaces && k !in todo ==>
        && keyspaces[k].View() == AfterValidation(old(keyspaces[k].View()), encryption)
        && parseTTL(keyspaces[k].ttlString) == Some(keyspaces[k].ttl)
    {
      var k :| k in todo;
      todo := todo - {k};
      var valid := keyspaces[k].Validate(encryption, parseTTL);
      if !valid {
        return false;
      }
    }
    ok := true;
  }

  /** Every label a validated keyspace carries: only the store's is encrypted, as
      configured, and every code has a text. */
  lemma InheritedLabels(f: Formats, encryption: bv8)
    ensures var g := Inherit(f, encryption);
            && g.input.magicByte.Named() && g.store.magicByte.Named() && g.output.magicByte.Named()
            && g.input.magicByte.encryption == 0 && g.output.magicByte.encryption == 0
            && g.store.magicByte.encryption == encryption
  {
  }

  /** A setting that is given determines its code; one left empty takes the code of the
      stage before it. An output type that is given counts exactly if a store or input type
      is written, or if it means unknown anyway. */
  lemma InheritedStages(f: Formats, encryption: bv8)
    ensures var g := Inherit(f, encryption);
            && g.input.magicByte.cev == ContentEncodingCode(f.input.contentEncoding)
            && g.input.magicByte.ctv == ContentTypeCode(f.input.contentType)
            && g.store.magicByte.cev ==
               (if f.store.contentEncoding == "" then g.input.magicByte.cev
                else ContentEncodingCode(f.store.contentEncoding))
            && g.store.magicByte.ctv ==
               (if f.store.contentType == "" then g.input.magicByte.ctv else ContentTypeCode(f.store.contentType))
            && g.output.magicByte.cev ==
               (if f.output.contentEncoding == "" then g.store.magicByte.cev
                else ContentEncodingCode(f.output.contentEncoding))
    ensures var g := Inherit(f, encryption); var given := ContentTypeCode(f.output.contentType);
            if f.output.contentType == "" then g.output.magicByte.ctv == g.store.magicByte.ctv
            else
              (g.output.magicByte.ctv == given
               <==> f.store.contentType != "" || f.input.contentType != "" || given == CONTENT_TYPE_UNKNOWN)
  {
  }

  /** A keyspace keeps the FindX it is configured with, but for the user agent; one without
      gets one that is not enabled. */
  lemma FindXKept(c: Setup, encryption: bv8)
    ensures var f := AfterValidation(c, encryption).findX;
            && f.Some? && f.value.userAgent == "xdas"
            && (c.findX.None? ==> !f.value.Enabled)
            && (c.findX.Some? ==> f.value.Enabled == c.findX.value.Enabled && f.value.URL == c.findX.value.URL)
  {
  }

  /** Validation is idempotent. */
  lemma InheritTwice(f: Formats, encryption: bv8)
    ensures Inherit(Inherit(f, encryption), encryption) == Inherit(f, encryption)
  {
  }

  /** "No output type when the stored one is unknown" holds exactly unless the store
      type is written as a text that means unknown (such as
      `application/octet-stream`) and the output names a known type: the guard looks
      at the text, not at the code. */
  lemma UnknownStoreGuard(f: Formats, encryption: bv8)
    ensures var g := Inherit(f, encryption);
            var text := OrElse(f.store.contentType, f.input.contentType);
            (g.store.magicByte.ctv == CONTENT_TYPE_UNKNOWN ==> g.output.magicByte.ctv == CONTENT_TYPE_UNKNOWN)
            <==> text == "" || ContentTypeCode(text) != CONTENT_TYPE_UNKNOWN
                 || ContentTypeCode(f.output.contentType) == CONTENT_TYPE_UNKNOWN
  {
  }
}
