/**
  `seed_data` (server_app_seed.py): on start-up the three manufacturers and
  the two demo accounts are inserted, each table only when it is empty, and
  the two decisions are taken independently. bcrypt draws a random salt, so
  the two password hashes are inputs here rather than computed.
 */
module Seed {
  import opened Outcomes
  import opened Models
  import opened Handlers

  /** Boeing, Airbus and Other with their theme colours, numbered from `firstId`. */
  function SeedManufacturers(firstId: int): seq<Manufacturer> {
    [Manufacturer(firstId, "Boeing", Some("#0b3d91"), Some("#dce7f7")),
     Manufacturer(firstId + 1, "Airbus", Some("#00205b"), Some("#e5eef9")),
     Manufacturer(firstId + 2, "Other", Some("#2f855a"), Some("#e6fffa"))]
  }

  /** The active `admin` account and the active `user` account, numbered from `firstId`. */
  function SeedUsers(firstId: int, adminHash: string, userHash: string): seq<User> {
    [User(firstId, "admin", adminHash, "admin", true),
     User(firstId + 1, "user", userHash, "user", true)]
  }

  /**
    The tables after seeding: an empty manufacturers table gets the three
    manufacturers, then an empty users table gets the two accounts; a
    non-empty table is left as it is and nothing else changes.
   */
  function Seeded(t: Tables, adminHash: string, userHash: string): (r: Tables)
    ensures r.manufacturers != [] && r.users != []
    ensures t.manufacturers != [] ==> r.manufacturers == t.manufacturers
    ensures t.users != [] ==> r.users == t.users
    ensures t.manufacturers == [] ==> |r.manufacturers| == 3
    ensures t.users == [] ==> |r.users| == 2
    ensures r.sessions == t.sessions && r.auditLogs == t.auditLogs && r.documents == t.documents
    ensures r.sections == t.sections && r.figures == t.figures && r.clock == t.clock
    ensures t.nextId <= r.nextId
  {
    var t' := if t.manufacturers == [] then t.(manufacturers := SeedManufacturers(t.nextId), nextId := t.nextId + 3) else t;
    if t'.users == [] then t'.(users := SeedUsers(t'.nextId, adminHash, userHash), nextId := t'.nextId + 2) else t'
  }

  /** Whether the users table is seeded does not depend on the manufacturers table, and the other way round. */
  lemma SeedTablesIndependent(t: Tables, adminHash: string, userHash: string)
    ensures Seeded(t, adminHash, userHash).manufacturers
         == (if t.manufacturers == [] then SeedManufacturers(t.nextId) else t.manufacturers)
    ensures t.users == [] ==>
      Seeded(t, adminHash, userHash).users
      == SeedUsers(if t.manufacturers == [] then t.nextId + 3 else t.nextId, adminHash, userHash)
  {
  }

  /** Seeding twice changes nothing the first run did not: both tables are non-empty after it. */
  lemma SeedIdempotent(t: Tables, adminHash: string, userHash: string, adminHash': string, userHash': string)
    ensures Seeded(Seeded(t, adminHash, userHash), adminHash', userHash') == Seeded(t, adminHash, userHash)
  {
  }

  /** Seeding keeps every constraint of the tables: the new names and ids are fresh. */
  lemma SeedKeepsConsistent(t: Tables, adminHash: string, userHash: string)
    requires Consistent(t)
    ensures Consistent(Seeded(t, adminHash, userHash))
  {
    var t' := if t.manufacturers == [] then t.(manufacturers := SeedManufacturers(t.nextId), nextId := t.nextId + 3) else t;
    assert Consistent(t') by {
      if t.manufacturers == [] {
        DocumentsBelowGrows(t.documents, t.nextId, t.nextId + 3, t.clock);
        SectionsBelowGrows(t.sections, t.documents, t.nextId, t.nextId + 3);
        FiguresBelowGrows(t.figures, t.sections, t.documents, t.nextId, t.nextId + 3);
      }
    }
    if t'.users == [] {
      DocumentsBelowGrows(t'.documents, t'.nextId, t'.nextId + 2, t'.clock);
      SectionsBelowGrows(t'.sections, t'.documents, t'.nextId, t'.nextId + 2);
      FiguresBelowGrows(t'.figures, t'.sections, t'.documents, t'.nextId, t'.nextId + 2);
    }
  }

  lemma DocumentsBelowGrows(documents: seq<Document>, nextId: int, nextId': int, clock: nat)
    requires DocumentsWellFormed(documents, nextId, clock) && nextId <= nextId'
    ensures DocumentsWellFormed(documents, nextId', clock)
  {
  }

  lemma SectionsBelowGrows(sections: seq<Section>, documents: seq<Document>, nextId: int, nextId': int)
    requires SectionsWellFormed(sections, documents, nextId) && nextId <= nextId'
    ensures SectionsWellFormed(sections, documents, nextId')
  {
  }

  lemma FiguresBelowGrows(figures: seq<Figure>, sections: seq<Section>, documents: seq<Document>, nextId: int, nextId': int)
    requires FiguresWellFormed(figures, sections, documents, nextId) && nextId <= nextId'
    ensures FiguresWellFormed(figures, sections, documents, nextId')
  {
  }

  /**
    On an empty users table the seeded `admin` account logs in with
    `admin123` as an admin, and `user` logs in with `user123` as a plain
    user, provided the hashes are those of these passwords.
   */
  lemma {:induction false} SeededAccountsLogIn(t: Tables, adminHash: string, userHash: string, verify: (string, string) -> bool)
    requires t.users == []
    requires verify("admin123", adminHash) && verify("user123", userHash)
    ensures var r := CheckCredentials(Seeded(t, adminHash, userHash).users, "admin", "admin123", verify);
      r.Ok? && r.value.role == "admin"
    ensures var r := CheckCredentials(Seeded(t, adminHash, userHash).users, "user", "user123", verify);
      r.Ok? && r.value.role == "user"
  {
    var users := Seeded(t, adminHash, userHash).users;
    var firstId := if t.manufacturers == [] then t.nextId + 3 else t.nextId;
    assert users == SeedUsers(firstId, adminHash, userHash);
    assert users[0] in users && users[1] in users;
    assert UniqueUsernames(users);
    CredentialsOfAccount(users, "admin", "admin123", verify, users[0]);
    CredentialsOfAccount(users, "user", "user123", verify, users[1]);
  }

  /** `seed_data`: fills each empty table of the two, then commits. */
  method SeedData(db: Store, adminHash: string, userHash: string)
    requires db.Valid()
    modifies db
    ensures db.Valid()
    ensures db.Snapshot() == Seeded(old(db.Snapshot()), adminHash, userHash)
  {
    ghost var t := db.Snapshot();
    if |db.manufacturers| == 0 {
      db.manufacturers := SeedManufacturers(db.nextId);
      db.nextId := db.nextId + 3;
    }
    ghost var t' := db.Snapshot();
    assert t' == if t.manufacturers == [] then t.(manufacturers := SeedManufacturers(t.nextId), nextId := t.nextId + 3) else t;
    if |db.users| == 0 {
      db.users := SeedUsers(db.nextId, adminHash, userHash);
      db.nextId := db.nextId + 2;
    }
    assert db.Snapshot() == if t'.users == [] then t'.(users := SeedUsers(t'.nextId, adminHash, userHash), nextId := t'.nextId + 2) else t';
    SeedKeepsConsistent(t, adminHash, userHash);
  }
}
