/** The catalog's entities and the favorite record that snapshots one of them. */
module Catalog {

  /** A character's age is a number or free text upstream. */
  datatype Age = AgeYears(years: int) | AgeText(text: string)

  datatype Character = Character(
    id: int,
    name: string,
    age: Age,
    birthdate: string,
    gender: string,
    occupation: string,
    status: string,
    portraitPath: string,
    phrases: seq<string>)

  datatype Episode = Episode(
    id: int,
    name: string,
    season: int,
    episodeNumber: int,
    airdate: string,
    synopsis: string,
    imagePath: string)

  datatype Location = Location(
    id: int,
    name: string,
    town: string,
    use: string,
    imagePath: string)

  /** The payload stored in a favorite: one of the three entity shapes. */
  datatype Item = CharacterItem(character: Character) | EpisodeItem(episode: Episode) | LocationItem(location: Location)

  /** "character" | "episode" | "location". */
  datatype FavoriteType = CharacterFavorite | EpisodeFavorite | LocationFavorite

  /** A favorite record; `kind` is the source's `type` field. */
  datatype Favorite = Favorite(id: int, kind: FavoriteType, data: Item, addedAt: string)
}
