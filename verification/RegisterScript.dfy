/** The registration script: how it is printed, and for which names it splits back. */
module RegisterScript {
  import opened Text
  import opened Splitters
  import opened SplitLaws

  function ZonePart(zone: string, root: string): string {
    "CREATE ZONE IF NOT EXISTS " + zone + " STORAGE_ROOT = '" + root + "'"
  }

  function SchemaPart(zone: string, schema: string): string {
    "CREATE SCHEMA IF NOT EXISTS " + zone + "." + schema
  }

  function RegisterPart(zone: string, schema: string, table: string): string {
    "REGISTER DELTA TABLE " + zone + "." + schema + "." + table + " LOCATION '" + table + "'"
  }

  function RegisterParts(zone: string, schema: string, root: string, tables: seq<string>): seq<string> {
    [ZonePart(zone, root), SchemaPart(zone, schema)]
    + seq(|tables|, k requires 0 <= k < |tables| => RegisterPart(zone, schema, tables[k]))
  }

  /** `df_register_setup` */
  method DfRegisterSetup(zone: string, schema: string, root: string, tables: seq<string>) returns (script: string)
    ensures script == Join(RegisterParts(zone, schema, root, tables), ";\n")
    ensures tables == [] ==>
              script == "CREATE ZONE IF NOT EXISTS " + zone + " STORAGE_ROOT = '" + root + "'" + ";\n"
                        + ("CREATE SCHEMA IF NOT EXISTS " + zone + "." + schema)
  {
    var parts := ["CREATE ZONE IF NOT EXISTS " + zone + " STORAGE_ROOT = '" + root + "'",
                  "CREATE SCHEMA IF NOT EXISTS " + zone + "." + schema];
    for k := 0 to |tables|
      invariant parts == RegisterParts(zone, schema, root, tables[..k])
    {
      parts := parts + ["REGISTER DELTA TABLE " + zone + "." + schema + "." + tables[k] + " LOCATION '" + tables[k] + "'"];
    }
    assert tables[..|tables|] == tables;
    script := Join(parts, ";\n");
    if tables == [] {
      assert parts[1..] == [parts[1]];
    }
  }

  // ----- no terminator inside ---------------------------------------------------------------

  /** What has no semicolon adds no terminator in front. */
  lemma UnbrokenBehind(a: string, b: string)
    requires SEMI !in a
    ensures Unbroken(a + b) <==> Unbroken(b)
  {
    UnbrokenTail(a, b);
    if Unbroken(b) {
      UnbrokenPrefix(a, b);
    }
  }

  lemma UnbrokenTail(a: string, b: string)
    ensures Unbroken(a + b) ==> Unbroken(b)
  {
    hide Ends;
    forall p, q | 0 <= p < q < |b|
      ensures Ends(b, p, q) <==> Ends(a + b, |a| + p, |a| + q)
    {
      EndsBehind(a, b, p, q);
    }
  }

  lemma EndsBefore(a: string, b: string, p: nat, q: nat)
    requires p < q < |a|
    ensures Ends(a + b, p, q) <==> Ends(a, p, q)
  {
    EndsPart(a + b, 0, |a|, p, q);
    assert (a + b)[0..|a|] == a;
  }

  lemma UnbrokenHead(a: string, b: string)
    ensures Unbroken(a + b) ==> Unbroken(a)
  {
    hide Ends;
    forall p, q | 0 <= p < q < |a|
      ensures Ends(a, p, q) <==> Ends(a + b, p, q)
    {
      EndsBefore(a, b, p, q);
    }
  }

  /** Nothing reaches over a visible character. */
  lemma UnbrokenBoth(a: string, b: string)
    requires b != "" && !IsSpace(b[0])
    ensures Unbroken(a + b) <==> Unbroken(a) && Unbroken(b)
  {
    var s := a + b;
    UnbrokenHead(a, b);
    UnbrokenTail(a, b);
    if Unbroken(a) && Unbroken(b) {
      assert s[|a|] == b[0];
      forall p, q | 0 <= p < q < |s|
        ensures !Ends(s, p, q)
      {
        if q < |a| {
          EndsBefore(a, b, p, q);
        } else if p >= |a| {
          EndsBehind(a, b, p - |a|, q - |a|);
        }
      }
    }
  }

  /** What has no line feed ends no terminator. */
  lemma UnbrokenBefore(a: string, b: string)
    requires '\n' !in b
    ensures Unbroken(a + b) <==> Unbroken(a)
  {
    var s := a + b;
    UnbrokenHead(a, b);
    if Unbroken(a) {
      assert forall q | |a| <= q < |s| :: s[q] == b[q - |a|] != '\n';
      forall p, q | 0 <= p < q < |s|
        ensures !Ends(s, p, q)
      {
        if q < |a| {
          EndsBefore(a, b, p, q);
        }
      }
    }
  }

  /** A name, a blank and a visible character. */
  lemma UnbrokenThenWord(name: string, word: string)
    requires word != "" && !IsSpace(word[0])
    ensures Unbroken(name + " " + word) <==> Unbroken(name) && Unbroken(word)
  {
    UnbrokenBoth(name + " ", word);
    UnbrokenBefore(name, " ");
  }

  // ----- the parts --------------------------------------------------------------------------

  const ZONE_INTRO: string := "CREATE ZONE IF NOT EXISTS "
  const SCHEMA_INTRO: string := "CREATE SCHEMA IF NOT EXISTS "
  const TABLE_INTRO: string := "REGISTER DELTA TABLE "

  lemma ZoneUnbroken(zone: string, root: string)
    ensures Unbroken(ZonePart(zone, root)) <==> Unbroken(zone) && Unbroken(root)
  {
    hide Unbroken;
    var intro: string := "STORAGE_ROOT = '";
    var tail := intro + (root + "'");
    assert ZonePart(zone, root) == ZONE_INTRO + (zone + " " + tail);
    UnbrokenBehind(ZONE_INTRO, zone + " " + tail);
    UnbrokenThenWord(zone, tail);
    UnbrokenBehind(intro, root + "'");
    UnbrokenBefore(root, "'");
  }

  lemma SchemaUnbroken(zone: string, schema: string)
    ensures Unbroken(SchemaPart(zone, schema)) <==> Unbroken(zone) && Unbroken(schema)
  {
    hide Unbroken;
    assert SchemaPart(zone, schema) == SCHEMA_INTRO + (zone + ("." + schema));
    UnbrokenBehind(SCHEMA_INTRO, zone + ("." + schema));
    UnbrokenBoth(zone, "." + schema);
    UnbrokenBehind(".", schema);
  }

  lemma TableUnbroken(zone: string, schema: string, table: string)
    ensures Unbroken(RegisterPart(zone, schema, table)) <==> Unbroken(zone) && Unbroken(schema) && Unbroken(table)
  {
    hide Unbroken;
    var intro: string := "LOCATION '";
    var location := intro + (table + "'");
    var named := table + " " + location;
    var qualified := schema + ("." + named);
    TableText(zone, schema, table);
    UnbrokenBehind(TABLE_INTRO, zone + ("." + qualified));
    UnbrokenBoth(zone, "." + qualified);
    UnbrokenBehind(".", qualified);
    UnbrokenBoth(schema, "." + named);
    UnbrokenBehind(".", named);
    UnbrokenThenWord(table, location);
    UnbrokenBehind(intro, table + "'");
    UnbrokenBefore(table, "'");
  }

  lemma TableText(zone: string, schema: string, table: string)
    ensures RegisterPart(zone, schema, table) ==
            TABLE_INTRO + (zone + ("." + (schema + ("." + (table + " " + ("LOCATION '" + (table + "'")))))))
  {
    var location := "LOCATION '" + (table + "'");
    assert " LOCATION '" + table + "'" == " " + location;
  }

  /** A text from a visible letter to a visible character. */
  lemma StatementIff(x: string)
    requires x != "" && !IsSpace(x[0]) && x[0] != '-'
    ensures IsStatement(x) <==> Unbroken(x) && !IsSpace(x[|x| - 1])
  {
    hide HasCode;
    StartsWithCode(x);
  }

  /** In no name does the white space behind a semicolon hold a line feed; the schema's name, which
      may come last in its statement, does not end in white space, nor, if it comes last in the
      script, in a semicolon. */
  predicate NamesFit(zone: string, schema: string, root: string, tables: seq<string>) {
    && Unbroken(zone) && Unbroken(schema) && Unbroken(root)
    && (forall t | t in tables :: Unbroken(t))
    && (schema == "" || !IsSpace(schema[|schema| - 1]))
    && (tables == [] ==> !EndsInSemi(schema))
  }

  lemma PartsAre(zone: string, schema: string, root: string, tables: seq<string>)
    ensures var parts := RegisterParts(zone, schema, root, tables);
            && |parts| == 2 + |tables|
            && parts[0] == ZonePart(zone, root) && parts[1] == SchemaPart(zone, schema)
            && forall k | 0 <= k < |tables| :: parts[2 + k] == RegisterPart(zone, schema, tables[k])
  {
  }

  lemma PartsAreStatements(zone: string, schema: string, root: string, tables: seq<string>)
    ensures IsStatement(ZonePart(zone, root)) <==> Unbroken(zone) && Unbroken(root)
    ensures IsStatement(SchemaPart(zone, schema)) <==>
            Unbroken(zone) && Unbroken(schema) && (schema == "" || !IsSpace(schema[|schema| - 1]))
    ensures forall t :: IsStatement(RegisterPart(zone, schema, t)) <==> Unbroken(zone) && Unbroken(schema) && Unbroken(t)
  {
    hide Unbroken, IsStatement;
    ZoneUnbroken(zone, root);
    StatementIff(ZonePart(zone, root));
    SchemaUnbroken(zone, schema);
    StatementIff(SchemaPart(zone, schema));
    forall t
      ensures IsStatement(RegisterPart(zone, schema, t)) <==> Unbroken(zone) && Unbroken(schema) && Unbroken(t)
    {
      TableUnbroken(zone, schema, t);
      StatementIff(RegisterPart(zone, schema, t));
    }
  }

  lemma LastPart(zone: string, schema: string, root: string, tables: seq<string>)
    ensures var parts := RegisterParts(zone, schema, root, tables);
            EndsInSemi(parts[|parts| - 1]) <==> tables == [] && EndsInSemi(schema)
  {
    var parts := RegisterParts(zone, schema, root, tables);
    var last := parts[|parts| - 1];
    if tables == [] {
      assert last == SchemaPart(zone, schema);
      assert last[|last| - 1] == if schema == "" then '.' else schema[|schema| - 1];
    } else {
      assert last == RegisterPart(zone, schema, tables[|tables| - 1]);
      assert last[|last| - 1] == '\'';
    }
  }

  /** The registration script splits back into its statements exactly when the names fit. */
  lemma RegisterScriptSplits(zone: string, schema: string, root: string, tables: seq<string>)
    ensures var parts := RegisterParts(zone, schema, root, tables);
            DfStatements(Join(parts, ";\n")) == parts <==> NamesFit(zone, schema, root, tables)
  {
    hide DfStatements, IsStatement, Unbroken, EndsInSemi, RegisterPart, Join;
    var parts := RegisterParts(zone, schema, root, tables);
    PartsAre(zone, schema, root, tables);
    PartsAreStatements(zone, schema, root, tables);
    LastPart(zone, schema, root, tables);
    hide RegisterParts, ZonePart, SchemaPart;
    if AllStatements(parts) {
      assert parts[0] in parts && parts[1] in parts;
      forall t | t in tables ensures Unbroken(t) {
        var k :| 0 <= k < |tables| && tables[k] == t;
        assert parts[2 + k] in parts;
      }
    }
    if NamesFit(zone, schema, root, tables) {
      forall x | x in parts ensures IsStatement(x) {
        var k :| 0 <= k < |parts| && parts[k] == x;
        if k >= 2 {
          assert tables[k - 2] in tables;
          assert parts[2 + (k - 2)] == x;
        }
      }
    }
    SplitUndoesJoin(parts);
  }
}
