/** The `basemaps` table: the tile layers the map screen can show, keyed by name. */
module MapStyles {

  datatype Basemap = Basemap(name: string, url: string, attribution: string, icon: string)

  /** The keys in insertion order, the order in which the style menu lists them. */
  const BasemapKeys: seq<string> := ["osm", "carto", "cartoDark", "satellite", "terrain"]

  const Basemaps: map<string, Basemap> := map[
    "osm" := Basemap(
      "OpenStreetMap",
      "https://{s}.tile.openstreetmap.org/{z}/{x}/{y}.png",
      "&copy; <a href=\"https://www.openstreetmap.org/\">OpenStreetMap</a>",
      "\U{1F5FA}"),
    "carto" := Basemap(
      "CartoDB Positron",
      "https://{s}.basemaps.cartocdn.com/light_all/{z}/{x}/{y}{r}.png",
      "&copy; <a href=\"https://carto.com/\">CartoDB</a>",
      "\U{1F310}"),
    "cartoDark" := Basemap(
      "CartoDB Dark",
      "https://{s}.basemaps.cartocdn.com/dark_all/{z}/{x}/{y}{r}.png",
      "&copy; <a href=\"https://carto.com/\">CartoDB</a>",
      "\U{1F311}"),
    "satellite" := Basemap(
      "Satellite",
      "https://server.arcgisonline.com/ArcGIS/rest/services/World_Imagery/MapServer/tile/{z}/{y}/{x}",
      "&copy; <a href=\"https://www.esri.com/\">Esri</a>",
      "\U{1F6F0}"),
    "terrain" := Basemap(
      "Terrain",
      "https://{s}.tile.opentopomap.org/{z}/{x}/{y}.png",
      "&copy; <a href=\"https://opentopomap.org/\">OpenTopoMap</a>",
      "\U{1F3D4}")
  ]

  /** The basemap a new map screen starts with. */
  const DefaultBasemap: string := "osm"

  /**
   * The menu lists each key of the table exactly once, and the default is one of them,
   * so `basemaps[selectedBasemap]` is defined from the start.
   */
  lemma BasemapTableConsistent()
    ensures DefaultBasemap in Basemaps
    ensures |BasemapKeys| == |Basemaps| == 5
    ensures forall k :: k in Basemaps <==> k in BasemapKeys
    ensures forall i, j :: 0 <= i < j < |BasemapKeys| ==> BasemapKeys[i] != BasemapKeys[j]
  {
  }
}
