/** The records of setlist_fm.go, as already-decoded values. Go pointer
    fields that JSON may omit become Option values. */
module SetlistTypes {

  datatype Option<+T> = None | Some(value: T)

  datatype ArtistObject = ArtistObject(
    MbId: string,
    TmId: Option<int>,
    Name: string,
    SortName: string,
    Disambiguation: string,
    Url: string)

  datatype CountryObject = CountryObject(Code: string, Name: string)

  /** The float32 coordinates of a city are not part of this model. */
  datatype CityObject = CityObject(
    Id: string,
    Name: string,
    State: string,
    StateCode: string,
    Country: CountryObject)

  datatype VenueObject = VenueObject(Id: string, Name: string, City: CityObject, Url: string)

  datatype TourObject = TourObject(Name: string)

  datatype SongObject = SongObject(
    Name: string,
    With: Option<ArtistObject>,
    Cover: Option<ArtistObject>,
    Info: Option<string>,
    Tape: Option<bool>)

  datatype SetObject = SetObject(Name: string, Encore: int, Song: seq<SongObject>)

  datatype SetsList = SetsList(Set: seq<SetObject>)

  /** One performance by one artist at one venue on one date. */
  datatype SetlistObject = SetlistObject(
    Id: string,
    VersionId: string,
    EventDate: string,
    LastUpdated: string,
    Artist: ArtistObject,
    Venue: VenueObject,
    Tour: Option<TourObject>,
    Sets: SetsList,
    Info: Option<string>,
    Url: string)

  /** The paginated envelope the service answers with. */
  datatype ResponseSetlist = ResponseSetlist(
    Type: string,
    ItemsPerPage: int,
    Page: int,
    Total: int,
    Setlist: seq<SetlistObject>)

  /** The flattened event written to list.json. */
  datatype EventObject = EventObject(
    Id: string,
    Date: string,
    Venue: string,
    City: string,
    State: string,
    Artist: string,
    Tour: string,
    SongsPlayed: int,
    Link: string)
}
