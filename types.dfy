/** The shapes shared by the client and the server (src/types/index.ts and
    the `confessions` table). */
module Types {
  import opened Wrappers

  /** The fixed gender enumeration. */
  datatype Sex = Male | Female | Other

  function SexName(s: Sex): string {
    match s
    case Male => "Male"
    case Female => "Female"
    case Other => "Other"
  }

  /** One row of the `confessions` table. `description` is None when a text
      submission carried no description (the column is then NULL);
      `createdAt` is the insertion time as a timestamp. */
  datatype Confession = Confession(
    id: nat,
    city: string,
    sex: Sex,
    age: int,
    description: Option<string>,
    audioPath: Option<string>,
    createdAt: int)

  /** A row as the list endpoint returns it: the stored columns and, for a
      voice confession, the playback URL added after the query. */
  datatype ListedConfession = Listed(row: Confession, audioUrl: Option<string>)

  /** The sort keys the client offers. */
  datatype SortKey = CreatedAtKey | AgeKey | CityKey

  function SortKeyName(k: SortKey): string {
    match k
    case CreatedAtKey => "created_at"
    case AgeKey => "age"
    case CityKey => "city"
  }

  datatype SortOrder = Asc | Desc

  function SortOrderName(o: SortOrder): string {
    match o
    case Asc => "asc"
    case Desc => "desc"
  }

  /** The filter bar's state. `sex` is None for the empty choice; the age
      bounds are the text the user typed. */
  datatype SearchFilters = SearchFilters(
    city: string,
    sex: Option<Sex>,
    ageMin: string,
    ageMax: string,
    search: string,
    sortBy: SortKey,
    sortOrder: SortOrder)

  /** The submission form's fields, all as typed (`sex` is "" until chosen). */
  datatype ConfessionFormData = ConfessionFormData(city: string, sex: string, age: string, description: string)

  /** A recorded voice message, as bytes. */
  datatype Blob = Blob(bytes: seq<bv8>)

  /** What the client posts: a multipart form for a voice confession (the
      recording as a file field named by `audioName`, and no description),
      or the form's fields as JSON for a text confession. */
  datatype Payload =
    | Multipart(city: string, sex: string, age: string, audio: Blob, audioName: string)
    | Json(form: ConfessionFormData)

  /** One page of the list endpoint's answer. `totalPages` is None where
      `Math.ceil(total / limit)` is not a finite number (a zero limit). */
  datatype PaginationData = PaginationData(
    confessions: seq<ListedConfession>,
    totalPages: Option<int>,
    currentPage: int,
    total: nat)
}
