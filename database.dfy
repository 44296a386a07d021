/**
 * `NewConn` (`internal/database/database.go`): the Postgres dialector built
 * from the database configuration, through a key=value DSN.
 */
module Database {
  import opened Wrappers
  import opened Text

  /** `config.Database`. */
  datatype DatabaseConfig = DatabaseConfig(host: string, port: int, user: string, password: string, name: string,
                                           sslMode: string)

  /** `postgres.Config` as `NewConn` fills it. */
  datatype Dialector = PostgresDialector(dsn: string, preferSimpleProtocol: bool)

  /** The DSN's `key=value` fields, in the order the format string writes them. */
  function DsnFields(cfg: DatabaseConfig): (r: seq<string>)
    ensures |r| == 7
  {
    ["host=" + cfg.host, "user=" + cfg.user, "password=" + cfg.password, "dbname=" + cfg.name,
     "port=" + FormatInt(cfg.port), "sslmode=" + cfg.sslMode, "TimeZone=UTC"]
  }

  /** `fmt.Sprintf("host=%s user=%s password=%s dbname=%s port=%d sslmode=%s TimeZone=UTC", ...)`. */
  function Dsn(cfg: DatabaseConfig): string
  {
    "host=" + cfg.host + " user=" + cfg.user + " password=" + cfg.password + " dbname=" + cfg.name
    + " port=" + FormatInt(cfg.port) + " sslmode=" + cfg.sslMode + " TimeZone=UTC"
  }

  /** `NewConn`. */
  function NewConn(cfg: DatabaseConfig): (d: Dialector)
    ensures d.preferSimpleProtocol
    ensures d.dsn == Join(DsnFields(cfg), " ")
  {
    DsnIsJoinOfFields(cfg);
    PostgresDialector(Dsn(cfg), true)
  }

  /** No field value is quoted or escaped: the DSN is its fields joined by single spaces. */
  lemma DsnIsJoinOfFields(cfg: DatabaseConfig)
    ensures Dsn(cfg) == Join(DsnFields(cfg), " ")
  {
    DsnHead(cfg);
    DsnTail(cfg);
  }

  /** The last three fields of the DSN. */
  lemma DsnTail(cfg: DatabaseConfig)
    ensures Join(DsnFields(cfg), " ")
            == Join(DsnFields(cfg)[..4], " ") + " port=" + FormatInt(cfg.port) + " sslmode=" + cfg.sslMode + " TimeZone=UTC"
  {
    var f := DsnFields(cfg);
    var s4 := Join(f[..4], " ");
    var s5 := s4 + " port=" + FormatInt(cfg.port);
    var s6 := s5 + " sslmode=" + cfg.sslMode;
    assert Join(f[..5], " ") == s5 by { JoinStep(f, 4, " "); }
    assert Join(f[..6], " ") == s6 by { JoinStep(f, 5, " "); }
    assert Join(f[..7], " ") == s6 + " TimeZone=UTC" by { JoinStep(f, 6, " "); }
    assert f[..7] == f;
  }

  /** The first four fields of the DSN. */
  lemma DsnHead(cfg: DatabaseConfig)
    ensures Join(DsnFields(cfg)[..4], " ")
            == "host=" + cfg.host + " user=" + cfg.user + " password=" + cfg.password + " dbname=" + cfg.name
  {
    var f := DsnFields(cfg);
    var s1 := "host=" + cfg.host;
    var s2 := s1 + " user=" + cfg.user;
    var s3 := s2 + " password=" + cfg.password;
    assert Join(f[..1], " ") == s1;
    assert Join(f[..2], " ") == s2 by { JoinStep(f, 1, " "); }
    assert Join(f[..3], " ") == s3 by { JoinStep(f, 2, " "); }
    assert Join(f[..4], " ") == s3 + " dbname=" + cfg.name by { JoinStep(f, 3, " "); }
  }

  /** One more field of the DSN. */
  lemma JoinStep(f: seq<string>, k: nat, sep: string)
    requires 1 <= k < |f|
    ensures Join(f[..k + 1], sep) == Join(f[..k], sep) + sep + f[k]
  {
    assert f[..k] + [f[k]] == f[..k + 1];
    JoinSnoc(f[..k], f[k], sep);
  }

  /** `%d` never writes a space. */
  lemma FormatIntHasNoSpace(n: int)
    ensures ' ' !in FormatInt(n)
  {
    var s := FormatInt(n);
    if n < 0 {
      assert s == "-" + Digits(-n);
      assert forall i :: 0 <= i < |s| ==> s[i] == '-' || IsDigit(s[i]);
    } else {
      assert forall i :: 0 <= i < |s| ==> IsDigit(s[i]);
    }
  }

  /** With no space in any value, a reader splitting on spaces gets the seven fields back, port in decimal. */
  lemma DsnSplitsIntoItsFields(cfg: DatabaseConfig)
    requires ' ' !in cfg.host && ' ' !in cfg.user && ' ' !in cfg.password && ' ' !in cfg.name && ' ' !in cfg.sslMode
    requires MinInt64 <= cfg.port <= MaxInt64
    ensures Split(Dsn(cfg), ' ') == DsnFields(cfg)
    ensures ParseInt64(DsnFields(cfg)[4][|"port="|..]) == Some(cfg.port)
  {
    var f := DsnFields(cfg);
    FormatIntHasNoSpace(cfg.port);
    DsnIsJoinOfFields(cfg);
    SplitOfJoin(f, ' ');
    assert f[4][|"port="|..] == FormatInt(cfg.port);
    ParseFormatInt(cfg.port);
  }

  /** A password holding a space is written as is, so the DSN then splits into eight pieces, not seven. */
  lemma SpacedPasswordAddsAField(cfg: DatabaseConfig, a: string, b: string)
    requires cfg.password == a + " " + b && ' ' !in a && ' ' !in b
    requires ' ' !in cfg.host && ' ' !in cfg.user && ' ' !in cfg.name && ' ' !in cfg.sslMode
    ensures |Split(Dsn(cfg), ' ')| == 8
  {
    var f := DsnFields(cfg);
    var g := f[..2] + ["password=" + a, b] + f[3..];
    FormatIntHasNoSpace(cfg.port);
    assert forall i :: 0 <= i < |g| ==> ' ' !in g[i];
    DsnIsJoinOfFields(cfg);
    assert Join(f, " ") == Join(g, " ") by {
      assert f[2] == "password=" + a + " " + b;
      JoinSplice(f, g, " ", "password=" + a, b);
    }
    SplitOfJoin(g, ' ');
  }

  /** Replacing the third field by two fields joined by the separator leaves the joined string as it was. */
  lemma JoinSplice(f: seq<string>, g: seq<string>, sep: string, x: string, y: string)
    requires |f| == 7 && f[2] == x + sep + y && g == f[..2] + [x, y] + f[3..]
    ensures Join(f, sep) == Join(g, sep)
  {
    var h := f[..2];
    assert f == (h + [x + sep + y]) + f[3..];
    assert g == (h + [x] + [y]) + f[3..];
    SpliceHead(h, sep, x, y);
    JoinAppend(h + [x + sep + y], f[3..], sep);
    JoinAppend(h + [x] + [y], f[3..], sep);
  }

  /** The same splice on the fields before the rest. */
  lemma SpliceHead(h: seq<string>, sep: string, x: string, y: string)
    requires |h| >= 1
    ensures Join(h + [x + sep + y], sep) == Join(h + [x] + [y], sep)
  {
    var j := Join(h, sep);
    JoinSnoc(h, x + sep + y, sep);
    JoinSnoc(h, x, sep);
    assert |h + [x]| != 0;
    JoinSnoc(h + [x], y, sep);
    Regroup(j, sep, x, y);
  }

  /** Concatenation regrouped around the separator. */
  lemma Regroup(j: string, sep: string, x: string, y: string)
    ensures j + sep + (x + sep + y) == j + sep + x + sep + y
  {
  }
}
