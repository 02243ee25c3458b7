# Movie-database exercise scripts, modelled in Dafny

The scripts under `scripts/bddr/` answer exercises about a movie database held in two stores.

The relational store has four tables:

- `tArtist`: artists, with a birth year;
- `tJob`: the responsibility (`category`) an artist held on a film;
- `tFilm`: films, with a start year and a runtime;
- `tPrincipal`: which artist took part in which film.

Six report scripts run `GROUP BY` / `COUNT(DISTINCT …)` / `HAVING` / `ORDER BY` queries over these tables. They then do a little post-processing in Python: keeping the rows tied with the maximum, paging, truncating long names, joining role lists, and tallying role combinations. A seventh script describes the catalogue: tables, columns, primary keys.

The graph store holds `Person` and `Movie` nodes linked by `ACTED_IN` and `DIRECTED` relationships. Four scripts change it with openCypher statements, then read it back:

- add a person;
- add a movie;
- link the person to the movie;
- merge two directors onto the movie.

The model has the following parts:

- `Tables` holds the tables as sequences of rows. A connection is `Up(db)`, or `Down` when the driver raises.
- Each query is a function of the tables:
  - a `GROUP BY` key set is a set comprehension;
  - `COUNT(DISTINCT x)` is the size of the set of non-null `x`;
  - `HAVING` is a filter;
  - `ORDER BY` is a stable insertion sort (`Sorting.SortBy`) on exactly the `ORDER BY` keys.

  Rows that tie on those keys come out in an order the model leaves unspecified, as the engine does. Every property is therefore stated as a membership count plus an ordering fact. None of them relies on a particular tie order.
- The Python post-steps are functions over the query rows: `Display.TiedWithFirst`, `Display.Paginate`, `Display.Ellipsize`, `Display.Clip` and `Text.Join`. The one loop that builds a dictionary in place, the role-combination tally, is a method proved against a function.
- The graph is a `class Store` whose fields are the node and edge sequences. A node's identity is its position. Each Cypher statement is a method of the store: `CREATE` appends, while `MERGE` appends only what is absent. Each script is a method over the store. The exceptions its statements may raise are a `Faults` parameter, and a statement that raises leaves the store unchanged.

String order is code-point lexicographic order (`Text.LexLe`).

## Model

| member | source | states |
|---|---|---|
| BirthYears.BornIn | scripts/bddr/exercice4_most_common_birth_year.py:29-32 | the count is positive exactly when some artist was born that year, and is at most the number of artists |
| BirthYears.RankedYearsMembership | scripts/bddr/exercice4_most_common_birth_year.py:67-73 | each non-zero, non-null birth year appears exactly once with its artist count, and no other row appears |
| BirthYears.YearCountsCard | scripts/bddr/exercice4_most_common_birth_year.py:67-73 | there is one group per distinct valid birth year |
| BirthYears.RankedYearsLength | scripts/bddr/exercice4_most_common_birth_year.py:67-73 | the full ranking has one row per distinct valid birth year |
| BirthYears.RankedYearsDistinct | scripts/bddr/exercice4_most_common_birth_year.py:71 | no year appears in two rows |
| BirthYears.RankedYearsOrdered | scripts/bddr/exercice4_most_common_birth_year.py:72 | counts never increase down the ranking |
| BirthYears.FirstRankedIsMost | scripts/bddr/exercice4_most_common_birth_year.py:29-33 | the first row's count is at least every row's count |
| BirthYears.TopBirthYearsSpec | scripts/bddr/exercice4_most_common_birth_year.py:67-78 | `TOP limit` returns min(limit, number of years) rows; each row has a valid year and its true count; counts never increase; years are distinct; the first row heads the full ranking |
| BirthYears.TopIsPrefix | scripts/bddr/exercice4_most_common_birth_year.py:67-78 | the top-N rows are a prefix of the full ranking |
| BirthYears.MostCommonBirthYearSpec | scripts/bddr/exercice4_most_common_birth_year.py:28-46 | the year and count are both absent exactly on error or when no valid year exists; otherwise the year is non-zero, the count is its true count, and no valid year has more artists |
| BirthYears.ValidYearAtMostFirst | scripts/bddr/exercice4_most_common_birth_year.py:28-46 | the ranking is non-empty once some artist has a valid year, and that year has no more artists than the first ranked one |
| BirthYears.TopAgreesWithMostCommon | scripts/bddr/exercice4_most_common_birth_year.py:95-110 | the top-10 list is non-empty and its first count equals the most common year's count |
| BirthYears.MainReportSpec | scripts/bddr/exercice4_most_common_birth_year.py:95-121 | a report exists exactly when the first lookup runs and some valid year exists; it shows a non-zero year with its true count, which no valid year exceeds; the top list is empty when its own lookup fails, and otherwise is the first min(10, years) rows of the ranking, headed by the announced count |
| MultipleFilms.GroupMembership | scripts/bddr/exercice5_artists_multiple_films.py:28-35 | a group (`nconst`, name, n) is produced exactly once iff that artist row exists and n is its number of distinct films and n > 1; no other group is produced |
| MultipleFilms.OrderedGroupsAreTheGroups | scripts/bddr/exercice5_artists_multiple_films.py:28-35 | the ordered groups are the `HAVING` groups, each exactly once |
| MultipleFilms.RowMultiplicity | scripts/bddr/exercice5_artists_multiple_films.py:29-35 | a (name, count) row appears as many times as there are groups showing it |
| MultipleFilms.RowsAboveOne | scripts/bddr/exercice5_artists_multiple_films.py:33 | every returned row has more than one film |
| MultipleFilms.NamesakesKeptApart | scripts/bddr/exercice5_artists_multiple_films.py:32 | two artists with different `nconst` but the same name and count give two identical rows |
| MultipleFilms.RowOrder | scripts/bddr/exercice5_artists_multiple_films.py:34 | rows are ordered by film count descending, then name ascending |
| MultipleFilms.MostProlificNames | scripts/bddr/exercice5_artists_multiple_films.py:78-79 | a name is most prolific iff some row with that name has the first row's count |
| MultipleFilms.MostProlificSpec | scripts/bddr/exercice5_artists_multiple_films.py:77-86 | the first row's count is the maximum; the tied rows are exactly the rows with that count, with their multiplicities; the prolific names are their names |
| MultipleFilms.MainReportSpec | scripts/bddr/exercice5_artists_multiple_films.py:57-96 | nothing is reported exactly on error; otherwise the total is the row count, the listing is the first min(20, total) rows with the other `total - 20` counted, and the prolific block exists iff rows exist, announces the first row's count, which no row exceeds, and shows the first min(5, ties) tied names with `len(ties) - 5` more reported when there are over 5 |
| MultipleRoles.ArtistRoleListSpec | scripts/bddr/exercice6_artists_multiple_roles.py:31-42 | the role list holds exactly the artist's distinct non-null categories, strictly ascending |
| MultipleRoles.ArtistRoleListOnError | scripts/bddr/exercice6_artists_multiple_roles.py:44-45 | on error the role list is empty |
| MultipleRoles.MultipleRolesMembership | scripts/bddr/exercice6_artists_multiple_roles.py:64-80 | a row (id, name, n) appears exactly once iff that artist exists and n is its number of distinct non-null categories and n > 1; no other row appears |
| MultipleRoles.MultipleRolesOrder | scripts/bddr/exercice6_artists_multiple_roles.py:74 | rows are ordered by role count descending, then name ascending |
| MultipleRoles.RolesShownMatchCount | scripts/bddr/exercice6_artists_multiple_roles.py:161-171 | for every listed artist, a role lookup that runs returns `role_count` roles |
| MultipleRoles.RoleStatisticsSpec | scripts/bddr/exercice6_artists_multiple_roles.py:103-116 | exactly one row per non-null category, with its number of distinct artists (at least 1); counts never increase |
| MultipleRoles.MainReportSpec | scripts/bddr/exercice6_artists_multiple_roles.py:150-194 | the artists report exists exactly when its query runs; then the total is the row count; the listing is the first min(25, total) rows, with the rest counted; each listed artist's role line is empty when its own lookup fails, and otherwise joins its `role_count` categories; the most-versatile block exists iff rows exist, shows the first min(5, ties) rows tied with the maximum role count with `len(ties) - 5` more reported, each with its role line |
| MultipleRoles.ReportOfSpec | scripts/bddr/exercice6_artists_multiple_roles.py:152-194 | on rows ordered by role count descending whose counts are the artists' category counts, the report has the listing, role lines and most-versatile block `MainReportSpec` describes |
| MultipleRoles.QueryRowsShape | scripts/bddr/exercice6_artists_multiple_roles.py:64-80 | the artists query's rows come by role count descending, and each count is the artist's number of distinct non-null categories |
| MultipleRoles.RolesLinesSpec | scripts/bddr/exercice6_artists_multiple_roles.py:161-192 | the role line of each shown artist is empty when its lookup fails, and otherwise joins its categories, `role_count` of them |
| MultipleRoles.MostVersatileSpec | scripts/bddr/exercice6_artists_multiple_roles.py:180-194 | on rows ordered by role count descending, the tie list holds exactly the rows no other row exceeds in role count, as often as they occur; the block shows its first min(5, ties) rows, at least one, and reports `len(ties) - 5` more when there are over 5 |
| MultipleRoles.StatisticsShownSpec | scripts/bddr/exercice6_artists_multiple_roles.py:135-141 | the statistics printed are empty when their lookup fails; otherwise one row per non-null category with its number of distinct artists, counts never increasing |
| MostActors.FilmsWithActorCountMembership | scripts/bddr/exercice8_films_most_actors.py:28-43 | a film row appears exactly once iff the film exists and its count is its number of distinct artists with category `'acted in'`, which is positive; no other row appears |
| MostActors.FilmsWithActorCountOrder | scripts/bddr/exercice8_films_most_actors.py:37 | actor counts never increase |
| MostActors.FilmsWithMaxActorsSpec | scripts/bddr/exercice8_films_most_actors.py:106-111 | the first count is the maximum; the tie list holds exactly the rows with the maximum count and starts with the first row |
| MostActors.FirstFilmWithId | scripts/bddr/exercice8_films_most_actors.py:68-81 | `fetchone` yields one film with that id (the model takes the first in table order), or none when no film has it |
| MostActors.FirstIndexWithId | scripts/bddr/exercice8_films_most_actors.py:68-81 | the position found holds the id, and no earlier row has it; the length when no row has it |
| MostActors.GetFilmDetails | scripts/bddr/exercice8_films_most_actors.py:52-91 | none on error or when no film matches; otherwise the four fields of a matching film |
| MostActors.WinnerBlockOf | scripts/bddr/exercice8_films_most_actors.py:119-135 | the year and runtime are shown exactly when the details exist and the value is truthy (non-null and non-zero) |
| MostActors.TopTable | scripts/bddr/exercice8_films_most_actors.py:145-155 | min(10, rows) lines ranked from 1, each with its row's count; a title of at most 50 characters is unchanged, a longer one becomes its first 47 characters and `"..."` |
| MostActors.WinnersSpec | scripts/bddr/exercice8_films_most_actors.py:106-135 | one block per film tied with the maximum count, at least one, in order, numbered from 1, each with that film's id, title and count; year and duration are absent when that film's details lookup fails, and otherwise are the film's own, each shown only when set and non-zero |
| MostActors.WinnerAt | scripts/bddr/exercice8_films_most_actors.py:119-135 | the block at position i shows the i-th tied film's id, title, count and details, numbered i + 1 |
| MostActors.MainReportSpec | scripts/bddr/exercice8_films_most_actors.py:104-166 | a report exists exactly when the films lookup runs and returns rows; the announced maximum is the first row's count and bounds every count; there is one block per tied film, in order, with that film's id, title and the maximum, and its year and duration as found by that film's own details lookup (none when it raised); the table is the top 10 of the rows |
| MostActors.ReportOfSpec | scripts/bddr/exercice8_films_most_actors.py:104-166 | on rows ordered by count, the announced maximum is the first row's count and bounds every count, the blocks are the tied films in order, numbered from 1, with their ids, titles, details and the maximum, and the table is the top 10 |
| RolesPerFilm.MaxStartYear | scripts/bddr/exercice9_artists_multiple_roles_per_film.py:31 | `MAX(startYear)` is null iff no matching film has a year; otherwise it is a matching film's year, and no matching year exceeds it |
| RolesPerFilm.PerFilmMembership | scripts/bddr/exercice9_artists_multiple_roles_per_film.py:24-39 | a pair row appears exactly once iff artist and film exist, its count is the pair's number of distinct non-null categories, that count exceeds 1, and its year is the `MAX`; no other row appears |
| RolesPerFilm.PairRowsMembership | scripts/bddr/exercice9_artists_multiple_roles_per_film.py:24-39 | a pair row is among the grouped rows iff artist and film exist, its count is the pair's number of distinct non-null categories and exceeds 1, and its year is the `MAX` |
| RolesPerFilm.PerFilmOrder | scripts/bddr/exercice9_artists_multiple_roles_per_film.py:38 | rows are ordered by role count descending, then artist name, then film title ascending |
| RolesPerFilm.JoinItems | scripts/bddr/exercice9_artists_multiple_roles_per_film.py:99-100 | joining the looked-up roles fails exactly when the list holds a null |
| RolesPerFilm.PairRoleListSpec | scripts/bddr/exercice9_artists_multiple_roles_per_film.py:56-68 | the non-null role list holds exactly the pair's distinct categories, sorted ascending, without duplicates, as many as the count |
| RolesPerFilm.ExamplePairIsReported | scripts/bddr/exercice9_artists_multiple_roles_per_film.py:24-39 | the example pair, which has two categories and one null-category job, is in the result |
| RolesPerFilm.ExampleLookupHoldsNull | scripts/bddr/exercice9_artists_multiple_roles_per_film.py:56-62 | the unfiltered role lookup of that pair returns a null |
| RolesPerFilm.NullCategoryBreaksRoleDisplay | scripts/bddr/exercice9_artists_multiple_roles_per_film.py:98-100 | for a reported pair, joining the roles as written fails |
| RolesPerFilm.FilteredRolesAlwaysJoin | scripts/bddr/exercice9_artists_multiple_roles_per_film.py:98-100 | with the null filter, every reported pair's roles join, and there are exactly `role_count` of them |
| RolesPerFilm.RoleListMatchesCount | scripts/bddr/exercice9_artists_multiple_roles_per_film.py:98-100 | a reported pair's filtered role lookup lists exactly `role_count` roles |
| RolesPerFilm.MaxRoleCount | scripts/bddr/exercice9_artists_multiple_roles_per_film.py:83 | the maximum bounds every row's count and is attained when rows exist |
| RolesPerFilm.MaxIsFirst | scripts/bddr/exercice9_artists_multiple_roles_per_film.py:83 | the maximum is the first row's count |
| RolesPerFilm.BucketsFromMultiset | scripts/bddr/exercice9_artists_multiple_roles_per_film.py:90-91 | the buckets from `top` down to 1 hold each row with count in 1..top exactly as often as the rows do |
| RolesPerFilm.BucketAt | scripts/bddr/exercice9_artists_multiple_roles_per_film.py:90-91 | bucket i holds `top - i` and exactly the rows with that count, in result order |
| RolesPerFilm.BucketsPartition | scripts/bddr/exercice9_artists_multiple_roles_per_film.py:90-91 | every row of a bucket has the bucket's count; the buckets together are a permutation of the results; the last bucket is 1 and empty |
| RolesPerFilm.BucketsHoldTheirCount | scripts/bddr/exercice9_artists_multiple_roles_per_film.py:90-91 | every case listed under a bucket has that bucket's number of roles |
| RolesPerFilm.BucketsKeepRows | scripts/bddr/exercice9_artists_multiple_roles_per_film.py:90-91 | the buckets together hold every row with a positive count, as often as it occurs |
| RolesPerFilm.LastBucketEmpty | scripts/bddr/exercice9_artists_multiple_roles_per_film.py:90-91 | when every count is above 1, the last bucket is the one for 1 role and it is empty |
| RolesPerFilm.BucketsOfMultiRoleRows | scripts/bddr/exercice9_artists_multiple_roles_per_film.py:90-91 | the same partition holds for any rows whose counts all exceed 1 |
| RolesPerFilm.BucketPageSpec | scripts/bddr/exercice9_artists_multiple_roles_per_film.py:90-109 | bucket i is numbered `max - i` and shows the lines of the first min(20, cases) rows with that count, in result order, with `len(cases) - 20` more reported when there are over 20; it shows nothing, and so prints no heading, exactly when no row has that count |
| RolesPerFilm.BucketPageOf | scripts/bddr/exercice9_artists_multiple_roles_per_film.py:98-109 | a bucket's page holds the lines of its first min(20, cases) cases, in order, and counts the rest |
| RolesPerFilm.CaseLineSpec | scripts/bddr/exercice9_artists_multiple_roles_per_film.py:99-106 | with the null-filtered role lookup (see ## Findings): a reported pair's line shows the name cut to its first 39 characters and the title to its first 44, each unchanged when it fits, and the pair's distinct non-null categories, ascending, `role_count` of them, joined with `" + "` |
| RolesPerFilm.CombinationKeyIgnoresOrder | scripts/bddr/exercice9_artists_multiple_roles_per_film.py:120 | role lists with the same elements give the same key |
| RolesPerFilm.CombinationKeyOfPair | scripts/bddr/exercice9_artists_multiple_roles_per_film.py:119-120 | with the null-filtered role lookup (see ## Findings): a pair's key is its ascending role list joined with `" + "` |
| RolesPerFilm.FirstSeen | scripts/bddr/exercice9_artists_multiple_roles_per_film.py:117-121 | the dictionary's keys are the distinct keys, once each, in first-seen order |
| RolesPerFilm.CountCombinations | scripts/bddr/exercice9_artists_multiple_roles_per_film.py:117-121 | the in-place dictionary update loop produces the tally |
| RolesPerFilm.TallyAccountsForEveryRow | scripts/bddr/exercice9_artists_multiple_roles_per_film.py:117-121 | the tally's counts sum to the number of rows; each entry's count is its key's number of occurrences, which is positive |
| RolesPerFilm.RankCombinationsSpec | scripts/bddr/exercice9_artists_multiple_roles_per_film.py:124 | the ranking is a permutation of the tally with counts never increasing, and equal counts keep first-seen order |
| RolesPerFilm.TopCombinationsSpec | scripts/bddr/exercice9_artists_multiple_roles_per_film.py:124-126 | with the null-filtered role lookup (see ## Findings): the combinations shown are the first min(10, n) of the ranking of the n distinct combinations, counts never increasing |
| RolesPerFilm.MainReportSpec | scripts/bddr/exercice9_artists_multiple_roles_per_film.py:75-126 | with the null-filtered role lookup (see ## Findings): no report exactly when there are no rows; otherwise the total is the row count, the buckets run from the maximum (the first row's count) down to 1, each showing the lines of its first min(20, cases) rows as `BucketPageSpec` says, and the combinations are the first min(10, n) of the ranking |
| RolesPerFilm.ReportOfSpec | scripts/bddr/exercice9_artists_multiple_roles_per_film.py:83-126 | with the null-filtered role lookup (see ## Findings), for any rows: the total is the row count, there is one bucket per count from the maximum down to 1, each numbered and paged as `BucketPageSpec` says, and the combinations are the first min(10, n) of the ranking |
| RolesPerFilm.ReportBucketsSpec | scripts/bddr/exercice9_artists_multiple_roles_per_film.py:90-109 | the bucket pages number as many as the maximum count, and page i is bucket `max - i`, showing the lines of its first min(20, cases) rows as `BucketPageSpec` says |
| SameFilmRoles.SameFilmMembership | scripts/bddr/exercice9_multiple_roles_same_film.py:12-25 | a row appears exactly once iff artist and film exist and the pair has more than one distinct non-null category, which is its count |
| SameFilmRoles.FilmRoleRowsMembership | scripts/bddr/exercice9_multiple_roles_same_film.py:12-25 | a row is among the grouped rows iff artist and film exist and the pair has more than one distinct non-null category, which is its count |
| SameFilmRoles.SameFilmAgreesWithPerFilm | scripts/bddr/exercice9_multiple_roles_same_film.py:12-25 | without `IS NOT NULL` it finds the same pairs, with the same counts, as the per-film script |
| SameFilmRoles.PerFilmPairListed | scripts/bddr/exercice9_multiple_roles_same_film.py:12-25 | every pair the per-film script reports is listed here |
| SameFilmRoles.SameFilmOrder | scripts/bddr/exercice9_multiple_roles_same_film.py:24 | rows are ordered by artist name, then film title ascending |
| SameFilmRoles.NullCategoryBreaksListing | scripts/bddr/exercice9_multiple_roles_same_film.py:69-70 | the example pair is listed, and joining its roles as written fails |
| SameFilmRoles.ListingSpec | scripts/bddr/exercice9_multiple_roles_same_film.py:54-75 | with the null-filtered role lookup (see ## Findings): no listing exactly when there are no rows; otherwise the header count and the number of lines equal the row count, one line per row in order |
| SameFilmRoles.LineOfSpec | scripts/bddr/exercice9_multiple_roles_same_film.py:67-75 | with the null-filtered role lookup (see ## Findings): a name over 40 characters shows its first 37 and `"..."`, a title over 50 its first 47 and `"..."`, each unchanged otherwise; the roles are the pair's distinct non-null categories, ascending, `role_count` of them, joined with `", "` |
| SameFilmRoles.NameColumns | scripts/bddr/exercice9_multiple_roles_same_film.py:72-73 | the artist column is the name cut at 40 and the film column the title cut at 50, each with `"..."` when cut |
| Display.WithCountMultiset | scripts/bddr/exercice9_artists_multiple_roles_per_film.py:91 | a bucket holds exactly the rows with that count, as often as the rows do |
| Display.TiedWithFirstIsMaximum | scripts/bddr/exercice6_artists_multiple_roles.py:181-182 | for rows with non-increasing counts, the first count is the maximum, and the tie list holds exactly the rows attaining it |
| Display.Paginate | scripts/bddr/exercice5_artists_multiple_films.py:66-71 | a page shows the first min(limit, n) items, and the rest are counted as hidden, which is positive iff n > limit |
| Display.Ellipsize | scripts/bddr/exercice9_multiple_roles_same_film.py:72-73 | a text longer than the width becomes its first width - 3 characters plus `"..."`, exactly the width; a shorter text is unchanged |
| Display.EllipsizeCut | scripts/bddr/exercice9_multiple_roles_same_film.py:72-73 | a text longer than the width shows its first width - 3 characters and `"..."` |
| Display.EllipsizeIdempotent | scripts/bddr/exercice9_multiple_roles_same_film.py:72-73 | truncating twice is truncating once |
| Display.Clip | scripts/bddr/exercice9_artists_multiple_roles_per_film.py:103-104 | the clipped name is the prefix of length min(n, length) |
| SchemaReport.BaseTableNames | scripts/bddr/describe_tables.py:30-43 | the names are exactly those of the base tables, in ascending order, one per base-table row, so the printed total is the number of base-table rows |
| SchemaReport.ColumnsOf | scripts/bddr/describe_tables.py:52-64 | the columns are exactly the table's column rows, each as often as the view holds it, in ordinal order |
| SchemaReport.PrimaryKeyPatternMeaning | scripts/bddr/describe_tables.py:95 | `LIKE 'PK_%'` accepts exactly the names of at least three characters starting `PK` |
| SchemaReport.PrimaryKeyEntries | scripts/bddr/describe_tables.py:91-99 | the key entries are exactly the table's entries whose constraint matches the pattern, each as often as the view holds it, in ordinal order |
| SchemaReport.TypeLabel | scripts/bddr/describe_tables.py:79-82 | the label is the bare type unless a positive length is present; then it is longer and starts with the type |
| SchemaReport.TypeLabelLength | scripts/bddr/describe_tables.py:79-80 | with a positive length the label is `type(` followed by the length's decimal digits and `)` |
| SchemaReport.ColumnLineOf | scripts/bddr/describe_tables.py:72-88 | nullable is `OUI` iff `IS_NULLABLE` is `YES`, else `NON`; a missing or empty default shows as empty; a default over 15 characters shows as 12 characters plus `...`, a shorter one unchanged, so never over 15; the type is the type label |
| SchemaReport.FormatColumn | scripts/bddr/describe_tables.py:72-88 | reassigning the default and type step by step yields the column line |
| SchemaReport.DefaultShownIsStable | scripts/bddr/describe_tables.py:84-86 | formatting an already shown default leaves it as it is |
| SchemaReport.PrimaryKeyLine | scripts/bddr/describe_tables.py:99-102 | the key line is absent iff the table has no matching key entry; otherwise it is the key columns in ordinal order joined with `", "` |
| SchemaReport.TableReports | scripts/bddr/describe_tables.py:46-102 | one report per listed table, in order |
| SchemaReport.DescribeColumns | scripts/bddr/describe_tables.py:71-88 | the column loop gives one formatted line per column, in the order the columns come |
| SchemaReport.DescribeTable | scripts/bddr/describe_tables.py:47-102 | one pass of the table loop yields the table's report: its name, one line per column in ordinal order, and its primary-key line |
| SchemaReport.DescribeEach | scripts/bddr/describe_tables.py:46-102 | the loop over tables yields one report per table, in the listed order |
| SchemaReport.DescribeTables | scripts/bddr/describe_tables.py:20-139 | on error, failure; with no base table, the empty message before any per-table work; otherwise one report per base table in name order |
| SchemaReport.EveryColumnDescribed | scripts/bddr/describe_tables.py:52-88 | every column of a table is described in that table's report |
| SchemaReport.OnlyTableColumnsDescribed | scripts/bddr/describe_tables.py:52-88 | every described line comes from a column of that table |
| GraphStore.NodesWhere | scripts/bddr/exercice_add_person.py:55-58 | a `MATCH` returns exactly the positions of the nodes that satisfy the pattern, in store order, each once |
| GraphStore.PersonsNamed | scripts/bddr/exercice_add_person.py:56 | the matched persons are exactly those with that first and last name |
| GraphStore.MoviesTitled | scripts/bddr/exercice_add_movie.py:55 | the matched movies are exactly those with that title |
| GraphStore.Cross | scripts/bddr/exercice_add_acted_in_relation.py:33-35 | two `MATCH` clauses then `CREATE` give one relationship per (person, movie) pair: as many as the product, and exactly those pairs |
| GraphStore.CrossLinksInto | scripts/bddr/exercice_add_acted_in_relation.py:33-35 | each created relationship links a matching person to a movie with that title |
| GraphStore.WithName | scripts/bddr/exercice_add_directors.py:41-42 | `SET p.name` gives every matching person the full name and leaves every other node as it was |
| GraphStore.MergeEdges | scripts/bddr/exercice_add_directors.py:45 | `MERGE` keeps the existing relationships in place and afterwards holds exactly the old ones plus the wanted ones |
| GraphStore.MergeEdgesPresent | scripts/bddr/exercice_add_directors.py:45 | merging relationships that already exist changes nothing |
| GraphStore.Store.CreatePerson | scripts/bddr/exercice_add_person.py:29-31 | appends exactly one person with first name, last name and full name; the relationships are unchanged |
| GraphStore.Store.CreateMovie | scripts/bddr/exercice_add_movie.py:28-31 | appends exactly one movie with the title; the relationships are unchanged |
| GraphStore.Store.CreateActedIn | scripts/bddr/exercice_add_acted_in_relation.py:32-41 | no node changes; one `ACTED_IN` relationship is appended per matched pair; the records returned number persons times movies |
| GraphStore.Store.MergeDirector | scripts/bddr/exercice_add_directors.py:40-56 | the store becomes the merged graph, and the records returned are one per `DIRECTED` relationship from a matched person to a matched movie afterwards, so one per pair it created and one per relationship that already linked a pair |
| GraphStore.MergedKeepsMovies | scripts/bddr/exercice_add_directors.py:40-46 | the merge keeps every movie and adds only persons |
| GraphStore.MergedKeepsTitles | scripts/bddr/exercice_add_directors.py:40-46 | a title is matched after the merge iff it was before |
| GraphStore.AppendedNodeUnseen | scripts/bddr/exercice_add_person.py:29-31 | creating a node in a graph whose relationships join its nodes leaves every relationship count and every relationship listing unchanged |
| GraphStore.MergedMovieAt | scripts/bddr/exercice_add_directors.py:40-46 | a node is a movie of a title after the director statement iff it was before |
| GraphStore.RenamedKeepsMovies | scripts/bddr/exercice_add_directors.py:41-42 | `SET`, after the `MERGE` may have appended its person, keeps every label and every movie, and every appended node is a person |
| GraphStore.StatementsKeepWellFormed | scripts/bddr/exercice_add_directors.py:40-46 | every statement keeps both ends of every relationship inside the store |
| AddPerson.AddAndVerifyPerson | scripts/bddr/exercice_add_person.py:29-96 | a failed creation returns early and changes nothing; otherwise exactly one person is appended; a failed verification returns early; otherwise the rows found are the matching persons, and the total is the person count unless that query failed |
| AddPerson.PersonCountGrows | scripts/bddr/exercice_add_person.py:82-85 | each run raises the person count by exactly one |
| AddPerson.NewPersonFound | scripts/bddr/exercice_add_person.py:55-69 | the verification finds the earlier rows plus the new person with its full name, so at least one row |
| AddPerson.TwoRunsTwoPersons | scripts/bddr/exercice_add_person.py:29-31 | two runs leave two identical new persons, a count two higher, and two more rows |
| AddMovie.AddAndVerifyMovie | scripts/bddr/exercice_add_movie.py:28-93 | a failed creation returns early and changes nothing; otherwise exactly one movie is appended; a failed verification returns early; otherwise the rows are the matching titles, and the total is the movie count unless that query failed |
| AddMovie.MovieCountGrows | scripts/bddr/exercice_add_movie.py:79-82 | each run raises the movie count by exactly one, whatever titles exist |
| AddMovie.NewMovieFound | scripts/bddr/exercice_add_movie.py:54-66 | the verification finds the earlier rows plus one more, and every row carries the title |
| AddMovie.MovieRowsShowTitle | scripts/bddr/exercice_add_movie.py:54-66 | every row of the verification query shows the title it looked for |
| AddMovie.TwoRunsTwoMovies | scripts/bddr/exercice_add_movie.py:28-31 | two runs raise the movie count and the rows found by two |
| AddActedIn.AddAndVerifyActedIn | scripts/bddr/exercice_add_acted_in_relation.py:32-126 | a failed creation returns early and changes nothing; otherwise the nodes are unchanged and one relationship per matched pair is appended; a failed verification returns early; otherwise the rows, the count and the actor listing are read from the new store, each absent if its query failed |
| AddActedIn.CreatedPerPair | scripts/bddr/exercice_add_acted_in_relation.py:32-53 | as many relationships as persons times movies; none iff either side is missing |
| AddActedIn.ActedInCountRises | scripts/bddr/exercice_add_acted_in_relation.py:91-94 | the `ACTED_IN` total rises by exactly the number of matched pairs |
| AddActedIn.LinkRowsGrow | scripts/bddr/exercice_add_acted_in_relation.py:64-78 | the verification finds the earlier rows plus one per new relationship |
| AddActedIn.ActorNamesGrow | scripts/bddr/exercice_add_acted_in_relation.py:108-121 | the actor listing gets one more name per new relationship, so repeated links repeat names |
| AddActedIn.TwoRunsTwiceTheLinks | scripts/bddr/exercice_add_acted_in_relation.py:32-36 | two runs raise the count and the listing by twice the number of pairs |
| AddDirectors.Outcomes | scripts/bddr/exercice_add_directors.py:33-67 | one outcome per director, in list order |
| AddDirectors.MergedRecords | scripts/bddr/exercice_add_directors.py:58-64 | the statement returns rows iff a movie with the title exists ("Pas de résultat" otherwise) |
| AddDirectors.MergeDirectors | scripts/bddr/exercice_add_directors.py:33-67 | the loop runs one merge per director in list order; a director whose merge raises leaves the store as it was and the loop goes on |
| AddDirectors.AddAndVerifyDirectors | scripts/bddr/exercice_add_directors.py:33-153 | the store is the result of the director loop; the verification rows, the `DIRECTED` total and the summary are read from it, each absent if its query failed |
| AddDirectors.MergedPersons | scripts/bddr/exercice_add_directors.py:41-42 | after a merge a person with the director's names exists, and every such person carries the full name |
| AddDirectors.MergedLinks | scripts/bddr/exercice_add_directors.py:44-45 | after a merge every such person directs every movie with the title |
| AddDirectors.MergeSettles | scripts/bddr/exercice_add_directors.py:40-46 | a merge leaves the director settled: person present, named, and linked |
| AddDirectors.MergeOnSettled | scripts/bddr/exercice_add_directors.py:40-46 | merging a settled director changes nothing |
| AddDirectors.MergeKeepsSettled | scripts/bddr/exercice_add_directors.py:33-46 | merging another director keeps a settled director settled |
| AddDirectors.OtherMergeKeepsMatches | scripts/bddr/exercice_add_directors.py:33-46 | the statement for another director matches the same persons and movies for this director as before, leaves those persons unchanged and keeps every relationship |
| AddDirectors.RunSettles | scripts/bddr/exercice_add_directors.py:33-67 | after the loop, every director whose merge did not raise is settled |
| AddDirectors.RunOnSettled | scripts/bddr/exercice_add_directors.py:33-67 | the loop changes nothing when every director is already settled |
| AddDirectors.DirectorsIdempotent | scripts/bddr/exercice_add_directors.py:33-101 | a second run leaves the store, the node count and the `DIRECTED` total as the first left them |
| AddDirectors.RunKeepsTitles | scripts/bddr/exercice_add_directors.py:40-46 | the loop neither creates nor removes the movie |
| AddDirectors.MovieAbsentNoLinks | scripts/bddr/exercice_add_directors.py:43-46 | without the movie, no relationship is added, but each director whose merge did not raise still exists as a person |
| AddDirectors.SettledIsListed | scripts/bddr/exercice_add_directors.py:74-76 | a settled director is found by the verification and listed in the summary |
| AddDirectors.DirectorsListed | scripts/bddr/exercice_add_directors.py:119-144 | when the movie exists, after a clean run every director is verified and listed in the summary |
| AddDirectors.SummarySpec | scripts/bddr/exercice_add_directors.py:119-144 | the summary is absent iff no movie has the title; otherwise a name is among the directors iff some `DIRECTED` relationship into the movie comes from a person with that name |

## Left out

- Driver and connection plumbing in `scripts/db_connector.py` is not part of this model. Each lookup function opens its own connection, so each lookup that catches its errors sees either the tables or a driver exception (`Tables.Open`). Which ones raise is a `Faults` parameter of each script. The tables are the same for every lookup of one run: a change made by another client between two lookups is not modelled.
- Printing, column padding, separators and emoji are not modelled. Only the values shown, their truncation and their joins are.
- The birth-year bar width `int(count / first * 50)` is left out, because it uses floating-point division.
- The engine's order among rows that tie on every `ORDER BY` key is left unspecified. This covers the birth-year ranking, the actor counts and the role statistics, and also which film `fetchone` returns in `get_film_details`, whose query has no `ORDER BY`. The model fixes one order through an unspecified set enumeration, and no stated property depends on it.
- SQL collation is not modelled. Names, titles and categories are compared by code point (`Text.LexLe`), not by the server's case-insensitive collation.
- In the schema report, the foreign-key listing and the row count of each table are left out. Their rows are printed as fetched, with no rule on them to state.
- SchemaReport.DescribeTables: an exception raised in the middle of the table loop is modelled as failing the whole description. The lines already printed before the failure are not captured.
- RolesPerFilm.MainReportSpec and SameFilmRoles.ListingSpec: the two per-film scripts have no `try`, so a driver error escapes as an uncaught exception. The model does not represent that error path, and their queries take the tables directly.
- RolesPerFilm.MainReportSpec, RolesPerFilm.ReportOfSpec, RolesPerFilm.ReportBucketsSpec, RolesPerFilm.BucketPageSpec, RolesPerFilm.CaseLineSpec, RolesPerFilm.TopCombinationsSpec, RolesPerFilm.CombinationKeyOfPair, SameFilmRoles.ListingSpec and SameFilmRoles.LineOfSpec are stated for the role lookup with the null filter the scripts evidently intend (see ## Findings). The scripts as written raise `TypeError` on a pair that also has a null category, both at `" + ".join(roles)` and at `sorted(roles)`. That behaviour is captured only by RolesPerFilm.NullCategoryBreaksRoleDisplay and SameFilmRoles.NullCategoryBreaksListing.
- RolesPerFilm.ReportOfSpec: the report keeps one page for every count from the maximum down to 1. A page with no lines stands for a count the script skips without a heading (`if cases:`); `BucketPageSpec` states that a page is empty exactly when no row has its count.
- `LIKE 'PK_%'` is modelled with `_` as the SQL wildcard for any one character, as the server reads it. It therefore also accepts names such as `PKX…`.
- The graph scripts' fixed person, movie and director names are constants. They are not read from input.
- Neo4j internal identities are not modelled. A node is identified by its position in the store.
- What the creation statements print about the returned node or relationship (identity, property map) is left out. Only the number of records returned is kept.
- A statement that raises is modelled as changing nothing, which is what a rolled-back auto-commit transaction does.
- Relationships are kept as a sequence, so duplicates are visible. `MATCH` results follow store order, where Neo4j's order is unspecified.

## Findings

| source | as written | input that shows it | evidently intended | confidence | as-written member | corrected member |
|---|---|---|---|---|---|---|
| scripts/bddr/exercice9_artists_multiple_roles_per_film.py:56-62 | the per-pair role lookup has no `category IS NOT NULL` filter, so a null category comes back as `None`, and `" + ".join(roles)` raises `TypeError` | a pair with jobs `actor`, `director` and one job with a null category: it is reported with 2 roles, and its lookup returns `[None, "actor", "director"]` | the lookup filters nulls like the count does, so every reported pair's roles join | not executed | RolesPerFilm.NullCategoryBreaksRoleDisplay | RolesPerFilm.FilteredRolesAlwaysJoin |
| scripts/bddr/exercice9_multiple_roles_same_film.py:39-44 | the same unfiltered lookup feeds `", ".join(roles)` | the same pair, which this script also lists | the lookup filters nulls, and the line shows the pair's `role_count` distinct roles | not executed | SameFilmRoles.NullCategoryBreaksListing | SameFilmRoles.LineOfSpec |
